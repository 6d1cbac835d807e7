// Cutting the pending pool into groups and numbering them (ops/core/prodgroup.py:107-130).
module Partition {
  import opened Prelude
  import opened Ordering

  type Name = string

  datatype Candidate = Candidate(name: Name, author: string, delay: Option<int>)

  datatype GroupSpec = GroupSpec(author: string, members: seq<Name>)

  const ONLY_DELAY := 1

  // ------------------------------------------------------------------ the dictionary of the first loop

  predicate Eligible(c: Candidate) {
    c.delay == Some(ONLY_DELAY)
  }

  /** An author's eligible names, in record order. */
  function NamesOf(cs: seq<Candidate>, a: string): seq<Name> {
    if cs == [] then []
    else
      var c := cs[|cs| - 1];
      NamesOf(cs[..|cs| - 1], a) + if Eligible(c) && c.author == a then [c.name] else []
  }

  /** Authors with an eligible record, in order of first appearance. */
  function Authors(cs: seq<Candidate>): (r: seq<string>)
    ensures forall i, j :: 0 <= i < j < |r| ==> r[i] != r[j]
    ensures forall c <- cs :: Eligible(c) ==> c.author in r
  {
    if cs == [] then []
    else
      var rest, c := Authors(cs[..|cs| - 1]), cs[|cs| - 1];
      assert cs == cs[..|cs| - 1] + [c];
      if Eligible(c) && c.author !in rest then rest + [c.author] else rest
  }

  lemma {:induction false} AuthorIsEligible(cs: seq<Candidate>, a: string) returns (c: Candidate)
    requires a in Authors(cs)
    ensures c in cs && Eligible(c) && c.author == a
  {
    c := cs[|cs| - 1];
    if !(Eligible(c) && c.author == a) {
      c := AuthorIsEligible(cs[..|cs| - 1], a);
    }
  }

  lemma {:induction false} NoNames(cs: seq<Candidate>, a: string)
    requires a !in Authors(cs)
    ensures NamesOf(cs, a) == []
  {
    if cs != [] {
      NoNames(cs[..|cs| - 1], a);
    }
  }

  /** names[0:size], names[size:2*size], ... */
  function Chunks(names: seq<Name>, size: int): (r: seq<seq<Name>>)
    requires size >= 1
  {
    if names == [] then []
    else if |names| <= size then [names]
    else [names[..size]] + Chunks(names[size..], size)
  }

  function Labelled(a: string, chunks: seq<seq<Name>>): (r: seq<GroupSpec>)
    ensures |r| == |chunks| && forall i :: 0 <= i < |r| ==> r[i] == GroupSpec(a, chunks[i])
  {
    seq(|chunks|, i requires 0 <= i < |chunks| => GroupSpec(a, chunks[i]))
  }

  function SpecsOf(cs: seq<Candidate>, authors: seq<string>, size: int): seq<GroupSpec>
    requires size >= 1
  {
    if authors == [] then []
    else SpecsOf(cs, authors[..|authors| - 1], size)
         + AuthorSpecs(cs, authors[|authors| - 1], size)
  }

  function PartitionOf(cs: seq<Candidate>, size: int): seq<GroupSpec>
    requires size >= 1
  {
    SpecsOf(cs, Sort(Authors(cs), Self), size)
  }

  // ------------------------------------------------------------------ the loops

  method Collect(cs: seq<Candidate>) returns (byAuthor: map<string, seq<Name>>, authors: seq<string>)
    ensures authors == Authors(cs) && byAuthor.Keys == (set a | a in authors)
    ensures forall a <- authors :: byAuthor[a] == NamesOf(cs, a)
  {
    byAuthor, authors := map[], [];
    var i := 0;
    while i < |cs|
      invariant 0 <= i <= |cs|
      invariant authors == Authors(cs[..i]) && byAuthor.Keys == (set a | a in authors)
      invariant forall a <- authors :: byAuthor[a] == NamesOf(cs[..i], a)
    {
      var c := cs[i];
      assert cs[..i + 1][..i] == cs[..i] && cs[..i + 1][i] == c;
      if c.author !in authors {
        NoNames(cs[..i], c.author);
      }
      if c.delay == Some(ONLY_DELAY) {
        if c.author !in byAuthor {
          byAuthor, authors := byAuthor[c.author := []], authors + [c.author];
        }
        byAuthor := byAuthor[c.author := byAuthor[c.author] + [c.name]];
      }
      i := i + 1;
    }
    assert cs[..|cs|] == cs;
  }

  method Cut(a: string, names: seq<Name>, size: int) returns (specs: seq<GroupSpec>)
    requires size >= 1
    ensures specs == Labelled(a, Chunks(names, size))
  {
    specs := [];
    ghost var done: seq<seq<Name>> := [];
    var i := 0;
    while i < |names|
      invariant 0 <= i
      invariant Chunks(names, size) == if i < |names| then done + Chunks(names[i..], size) else done
      invariant specs == Labelled(a, done)
      decreases |names| - i
    {
      var upTo := if i + size < |names| then i + size else |names|;
      var chunk := names[i..upTo];
      done := done + [chunk];
      specs := specs + [GroupSpec(a, chunk)];
      if i + size >= |names| {
        assert names[i..] == chunk;
      } else {
        assert names[i..][size..] == names[i + size..] && names[i..][..size] == chunk;
        assert Chunks(names[i..], size) == [chunk] + Chunks(names[i + size..], size);
      }
      i := i + size;
    }
  }

  /** The second loop, over the authors in order. */
  method CutAll(ghost cs: seq<Candidate>, byAuthor: map<string, seq<Name>>, order: seq<string>, size: int) returns (specs: seq<GroupSpec>)
    requires size >= 1 && forall a <- order :: a in byAuthor && byAuthor[a] == NamesOf(cs, a)
    ensures specs == SpecsOf(cs, order, size)
  {
    hide NamesOf, Chunks;
    specs := [];
    var i := 0;
    while i < |order|
      invariant 0 <= i <= |order|
      invariant specs == SpecsOf(cs, order[..i], size)
    {
      assert order[..i + 1][..i] == order[..i];
      var more := Cut(order[i], Sort(byAuthor[order[i]], Self), size);
      specs := specs + more;
      i := i + 1;
    }
    assert order[..|order|] == order;
  }

  /** partition. range() with a step of zero raises as soon as there is an author to cut, a negative step yields nothing. */
  method Partition(cs: seq<Candidate>, size: int) returns (specs: Option<seq<GroupSpec>>)
    ensures specs == if size >= 1 then Some(PartitionOf(cs, size)) else if size == 0 && Authors(cs) != [] then None else Some([])
  {
    var byAuthor, authors := Collect(cs);
    if size == 0 && authors != [] {
      return None;
    }
    if size <= 0 {
      return Some([]);
    }
    var order := Sort(authors, Self);
    forall a | a in order
      ensures a in authors
    {
      SortMembers(authors, a);
    }
    var out := CutAll(cs, byAuthor, order, size);
    specs := Some(out);
  }

  // ------------------------------------------------------------------ what a partition is

  function Concat(chunks: seq<seq<Name>>): seq<Name> {
    if chunks == [] then [] else chunks[0] + Concat(chunks[1..])
  }

  /** Members of one author's groups, group after group. */
  function MembersOf(specs: seq<GroupSpec>, a: string): seq<Name> {
    if specs == [] then []
    else (if specs[0].author == a then specs[0].members else []) + MembersOf(specs[1..], a)
  }

  lemma {:induction false} ChunksCover(names: seq<Name>, size: int)
    requires size >= 1
    ensures Concat(Chunks(names, size)) == names
    ensures forall c <- Chunks(names, size) :: 1 <= |c| <= size
  {
    if |names| > size {
      ChunksCover(names[size..], size);
    }
  }

  lemma {:induction false} MembersOfConcat(s: seq<GroupSpec>, t: seq<GroupSpec>, a: string)
    ensures MembersOf(s + t, a) == MembersOf(s, a) + MembersOf(t, a)
  {
    if s == [] {
      assert s + t == t;
    } else {
      assert (s + t)[1..] == s[1..] + t;
      MembersOfConcat(s[1..], t, a);
    }
  }

  lemma {:induction false} MembersOfLabelled(b: string, chunks: seq<seq<Name>>, a: string)
    ensures MembersOf(Labelled(b, chunks), a) == if a == b then Concat(chunks) else []
  {
    if chunks != [] {
      assert Labelled(b, chunks)[1..] == Labelled(b, chunks[1..]);
      MembersOfLabelled(b, chunks[1..], a);
    }
  }

  /** The groups of one author. */
  function AuthorSpecs(cs: seq<Candidate>, b: string, size: int): seq<GroupSpec>
    requires size >= 1
  {
    Labelled(b, Chunks(Sort(NamesOf(cs, b), Self), size))
  }

  lemma {:induction false} AuthorCovered(cs: seq<Candidate>, b: string, size: int, a: string)
    requires size >= 1
    ensures MembersOf(AuthorSpecs(cs, b, size), a) == if a == b then Sort(NamesOf(cs, b), Self) else []
  {
    MembersOfLabelled(b, Chunks(Sort(NamesOf(cs, b), Self), size), a);
    ChunksCover(Sort(NamesOf(cs, b), Self), size);
  }

  lemma {:induction false} SpecsCover(cs: seq<Candidate>, authors: seq<string>, size: int, a: string)
    requires size >= 1 && Distinct(authors)
    ensures MembersOf(SpecsOf(cs, authors, size), a) == if a in authors then Sort(NamesOf(cs, a), Self) else []
  {
    hide Sort, NamesOf, Chunks, Labelled, AuthorSpecs;
    if authors != [] {
      var k := |authors| - 1;
      SpecsCover(cs, authors[..k], size, a);
      MembersOfConcat(SpecsOf(cs, authors[..k], size), AuthorSpecs(cs, authors[k], size), a);
      AuthorCovered(cs, authors[k], size, a);
      assert a in authors <==> a in authors[..k] || a == authors[k];
    }
  }

  lemma {:induction false} SpecsSized(cs: seq<Candidate>, authors: seq<string>, size: int)
    requires size >= 1
    ensures forall s <- SpecsOf(cs, authors, size) :: 1 <= |s.members| <= size
  {
    if authors != [] {
      var k := |authors| - 1;
      SpecsSized(cs, authors[..k], size);
      ChunksCover(Sort(NamesOf(cs, authors[k]), Self), size);
    }
  }

  ghost predicate Distinct(s: seq<string>) {
    forall i, j :: 0 <= i < j < |s| ==> s[i] != s[j]
  }

  lemma {:induction false} DistinctSorted(s: seq<string>)
    requires Distinct(s)
    ensures Distinct(Sort(s, Self))
  {
    var t := Sort(s, Self);
    SortElements(s, Self);
    DistinctCounts(s);
    forall i, j | 0 <= i < j < |t|
      ensures t[i] != t[j]
    {
      if t[i] == t[j] {
        RepeatedCounts(t, i, j);
      }
    }
  }

  lemma {:induction false} SortMembers(s: seq<string>, a: string)
    ensures a in Sort(s, Self) <==> a in s
  {
    SortElements(s, Self);
    assert a in multiset(Sort(s, Self)) <==> a in multiset(s);
  }

  lemma {:induction false} DistinctCounts(s: seq<string>)
    requires Distinct(s)
    ensures forall a :: multiset(s)[a] <= 1
  {
    if s != [] {
      var k := |s| - 1;
      DistinctCounts(s[..k]);
      assert s == s[..k] + [s[k]];
      assert s[k] !in s[..k];
    }
  }

  lemma RepeatedCounts(t: seq<string>, i: nat, j: nat)
    requires i < j < |t| && t[i] == t[j]
    ensures multiset(t)[t[i]] >= 2
  {
    assert t == t[..j] + t[j..];
    assert t[i] in multiset(t[..j]) && t[j] in multiset(t[j..]);
  }

  /** Every group has one author and between 1 and size members; an author's groups one after the other are the author's
      eligible names, sorted - so each eligible record is in exactly one group. */
  lemma {:induction false} PartitionCovers(cs: seq<Candidate>, size: int, a: string)
    requires size >= 1
    ensures MembersOf(PartitionOf(cs, size), a) == Sort(NamesOf(cs, a), Self)
    ensures multiset(MembersOf(PartitionOf(cs, size), a)) == multiset(NamesOf(cs, a)) && Sorted(MembersOf(PartitionOf(cs, size), a), Self)
    ensures forall s <- PartitionOf(cs, size) :: 1 <= |s.members| <= size
  {
    DistinctSorted(Authors(cs));
    SortMembers(Authors(cs), a);
    SpecsCover(cs, Sort(Authors(cs), Self), size, a);
    SpecsSized(cs, Sort(Authors(cs), Self), size);
    SortElements(NamesOf(cs, a), Self);
    SortSorted(NamesOf(cs, a), Self);
    if a !in Authors(cs) {
      NoNames(cs, a);
    }
  }

  /** Groups come in the order of their authors' names, an author's groups together. */
  lemma AuthorsInOrder(cs: seq<Candidate>, size: int, i: nat, j: nat)
    requires size >= 1 && i < j < |PartitionOf(cs, size)|
    ensures AtMost(PartitionOf(cs, size)[i].author, PartitionOf(cs, size)[j].author)
  {
    SortSorted(Authors(cs), Self);
    SpecsInOrder(cs, Sort(Authors(cs), Self), size, i, j);
  }

  lemma {:induction false} SpecsInOrder(cs: seq<Candidate>, authors: seq<string>, size: int, i: nat, j: nat)
    requires size >= 1 && Sorted(authors, Self) && i <= j < |SpecsOf(cs, authors, size)|
    ensures var specs := SpecsOf(cs, authors, size);
            AtMost(specs[i].author, specs[j].author) && specs[i].author in authors && specs[j].author in authors
  {
    var k := |authors| - 1;
    var before := SpecsOf(cs, authors[..k], size);
    if j < |before| {
      SpecsInOrder(cs, authors[..k], size, i, j);
    } else if i < |before| {
      SpecsInOrder(cs, authors[..k], size, i, i);
      var c :| 0 <= c < k && authors[c] == before[i].author;
      assert AtMost(Self(authors[c]), Self(authors[k]));
    }
  }

  /** An author's groups hold the author's delay-1 records, each as often as it is given: a record of another delay, or of none,
      is in no group. */
  lemma {:induction false} OnlyDelayOne(cs: seq<Candidate>, size: int, a: string, f: Name)
    requires size >= 1
    ensures multiset(MembersOf(PartitionOf(cs, size), a))[f] == multiset(cs)[Candidate(f, a, Some(1))]
  {
    PartitionCovers(cs, size, a);
    NamesAre(cs, a, f);
  }

  lemma {:induction false} NamesAre(cs: seq<Candidate>, a: string, f: Name)
    ensures multiset(NamesOf(cs, a))[f] == multiset(cs)[Candidate(f, a, Some(1))]
  {
    if cs != [] {
      NamesAre(cs[..|cs| - 1], a, f);
      assert cs == cs[..|cs| - 1] + [cs[|cs| - 1]];
    }
  }

  // ------------------------------------------------------------------ where a group's members are

  function Times(c: nat, size: nat): nat {
    c * size
  }

  lemma TimesNext(c: nat, size: nat)
    ensures Times(0, size) == 0 && Times(c + 1, size) == Times(c, size) + size
  {
    assert (c + 1) * size == c * size + size;
  }

  /** Group c of an author; none has no such group. */
  function ChunkAt(names: seq<Name>, size: int, c: int): (r: seq<Name>)
    requires size >= 1
    ensures 0 <= c < |Chunks(names, size)| ==> r == Chunks(names, size)[c] && r != []
  {
    ChunksCover(names, size);
    if 0 <= c < |Chunks(names, size)| then Chunks(names, size)[c] else [""]
  }

  /** Group c is the names from c*size on, and it is full unless it is the last. */
  lemma {:induction false} ChunkIs(names: seq<Name>, size: int, c: nat)
    requires size >= 1
    ensures c < |Chunks(names, size)| <==> Times(c, size) < |names|
    ensures c < |Chunks(names, size)| ==>
              var from, r := Times(c, size), ChunkAt(names, size, c);
              |r| == (if from + size <= |names| then size else |names| - from) && r == names[from..from + |r|]
  {
    if c == 0 {
      TimesNext(0, size);
    } else {
      TimesNext(c - 1, size);
      if |names| > size {
        ChunkIs(names[size..], size, c - 1);
      }
    }
  }

  lemma {:induction false} ChunksApart(size: nat, c: nat, d: nat)
    requires c < d
    ensures Times(c, size) + size <= Times(d, size)
  {
    TimesNext(d - 1, size);
    if c < d - 1 {
      ChunksApart(size, c, d - 1);
    }
  }

  /** A group of the partition is some author's group c. */
  lemma {:induction false} SpecIsChunk(cs: seq<Candidate>, authors: seq<string>, size: int, i: nat) returns (c: nat)
    requires size >= 1 && i < |SpecsOf(cs, authors, size)|
    ensures var s := SpecsOf(cs, authors, size)[i];
            s.author in authors && c < |Chunks(Sort(NamesOf(cs, s.author), Self), size)| && s.members == ChunkAt(Sort(NamesOf(cs, s.author), Self), size, c)
  {
    var k := |authors| - 1;
    var before := |SpecsOf(cs, authors[..k], size)|;
    if i < before {
      c := SpecIsChunk(cs, authors[..k], size, i);
    } else {
      c := i - before;
    }
  }

  /** Two of the same author are two of its groups, in the same order. */
  lemma {:induction false} SpecPair(cs: seq<Candidate>, authors: seq<string>, size: int, i: nat, j: nat) returns (c: nat, d: nat)
    requires size >= 1 && Distinct(authors) && i < j < |SpecsOf(cs, authors, size)|
    requires SpecsOf(cs, authors, size)[i].author == SpecsOf(cs, authors, size)[j].author
    ensures var s, t := SpecsOf(cs, authors, size)[i], SpecsOf(cs, authors, size)[j];
            var names := Sort(NamesOf(cs, s.author), Self);
            c < d < |Chunks(names, size)| && s.members == ChunkAt(names, size, c) && t.members == ChunkAt(names, size, d)
  {
    var k := |authors| - 1;
    var before := |SpecsOf(cs, authors[..k], size)|;
    if j < before {
      c, d := SpecPair(cs, authors[..k], size, i, j);
    } else if i < before {
      var _ := SpecIsChunk(cs, authors[..k], size, i);
      assert false;
    } else {
      c, d := i - before, j - before;
    }
  }

  /** And every group of every author is in the partition. */
  lemma {:induction false} ChunkPair(cs: seq<Candidate>, authors: seq<string>, size: int, a: string, c: nat, d: nat) returns (i: nat, j: nat)
    requires size >= 1 && a in authors && c < d < |Chunks(Sort(NamesOf(cs, a), Self), size)|
    ensures i < j < |SpecsOf(cs, authors, size)|
    ensures SpecsOf(cs, authors, size)[i] == GroupSpec(a, ChunkAt(Sort(NamesOf(cs, a), Self), size, c))
    ensures SpecsOf(cs, authors, size)[j] == GroupSpec(a, ChunkAt(Sort(NamesOf(cs, a), Self), size, d))
  {
    hide Sort, NamesOf, Chunks;
    var k := |authors| - 1;
    if authors[k] == a {
      var before := |SpecsOf(cs, authors[..k], size)|;
      i, j := before + c, before + d;
    } else {
      i, j := ChunkPair(cs, authors[..k], size, a, c, d);
    }
  }

  // ------------------------------------------------------------------ determinism

  lemma {:induction false} NamesOfConcat(x: seq<Candidate>, y: seq<Candidate>, a: string)
    ensures NamesOf(x + y, a) == NamesOf(x, a) + NamesOf(y, a)
  {
    if y == [] {
      assert x + y == x;
    } else {
      assert (x + y)[..|x + y| - 1] == x + y[..|y| - 1];
      NamesOfConcat(x, y[..|y| - 1], a);
    }
  }

  lemma {:induction false} NamesWithout(y: seq<Candidate>, i: nat, a: string)
    requires i < |y|
    ensures multiset(NamesOf(y, a)) == multiset(NamesOf([y[i]], a)) + multiset(NamesOf(Without(y, i), a))
  {
    assert y == y[..i] + ([y[i]] + y[i + 1..]);
    NamesOfConcat(y[..i], [y[i]] + y[i + 1..], a);
    NamesOfConcat([y[i]], y[i + 1..], a);
    NamesOfConcat(y[..i], y[i + 1..], a);
  }

  lemma {:induction false} NamesOfPermutation(x: seq<Candidate>, y: seq<Candidate>, a: string)
    requires multiset(x) == multiset(y)
    ensures multiset(NamesOf(x, a)) == multiset(NamesOf(y, a))
    decreases |x|
  {
    if x == [] {
      assert |multiset(y)| == 0;
    } else {
      var i := Find(x, y);
      NamesOfPermutation(Without(x, 0), Without(y, i), a);
      NamesWithout(x, 0, a);
      NamesWithout(y, i, a);
    }
  }

  lemma {:induction false} SameSetSameCounts(s: seq<string>, t: seq<string>)
    requires Distinct(s)
    requires Distinct(t)
    requires forall a :: a in s <==> a in t
    ensures multiset(s) == multiset(t)
  {
    DistinctCounts(s);
    DistinctCounts(t);
    forall a
      ensures multiset(s)[a] == multiset(t)[a]
    {
      assert (a in s <==> a in multiset(s)) && (a in t <==> a in multiset(t));
    }
  }

  lemma {:induction false} AuthorsPermutation(x: seq<Candidate>, y: seq<Candidate>)
    requires multiset(x) == multiset(y)
    ensures multiset(Authors(x)) == multiset(Authors(y))
  {
    forall a
      ensures a in Authors(x) <==> a in Authors(y)
    {
      if a in Authors(x) {
        var c := AuthorIsEligible(x, a);
        assert c in multiset(y);
      }
      if a in Authors(y) {
        var c := AuthorIsEligible(y, a);
        assert c in multiset(x);
      }
    }
    SameSetSameCounts(Authors(x), Authors(y));
  }

  lemma {:induction false} SpecsPermutation(x: seq<Candidate>, y: seq<Candidate>, authors: seq<string>, size: int)
    requires multiset(x) == multiset(y) && size >= 1
    ensures SpecsOf(x, authors, size) == SpecsOf(y, authors, size)
  {
    if authors != [] {
      var a := authors[|authors| - 1];
      SpecsPermutation(x, y, authors[..|authors| - 1], size);
      NamesOfPermutation(x, y, a);
      SortCanonical(NamesOf(x, a), NamesOf(y, a));
    }
  }

  /** The groups do not depend on the order of the records. */
  lemma PartitionIsDeterministic(x: seq<Candidate>, y: seq<Candidate>, size: int)
    requires multiset(x) == multiset(y) && size >= 1
    ensures PartitionOf(x, size) == PartitionOf(y, size)
  {
    AuthorsPermutation(x, y);
    SortCanonical(Authors(x), Authors(y));
    SpecsPermutation(x, y, Sort(Authors(x), Self), size);
  }

  // ------------------------------------------------------------------ group numbers

  function DigitChar(d: nat): (c: char)
    requires d < 10
    ensures DigitValue(c) == d
  {
    ('0' as int + d) as char
  }

  function DigitValue(c: char): int {
    c as int - '0' as int
  }

  function Digits(n: nat): (s: string)
    ensures |s| >= 1
  {
    if n < 10 then [DigitChar(n)] else Digits(n / 10) + [DigitChar(n % 10)]
  }

  /** f"{n:03d}" */
  function Padded(n: nat): string {
    var s := Digits(n);
    if |s| == 1 then "00" + s else if |s| == 2 then "0" + s else s
  }

  function Gid(n: nat): string {
    "g" + Padded(n)
  }

  function Value(s: string): int {
    if s == [] then 0 else 10 * Value(s[..|s| - 1]) + DigitValue(s[|s| - 1])
  }

  lemma {:induction false} DigitsValue(n: nat)
    ensures Value(Digits(n)) == n
  {
    if n < 10 {
      assert Value([]) == 0;
      assert Digits(n)[..0] == [];
    } else {
      DigitsValue(n / 10);
      assert Digits(n)[..|Digits(n)| - 1] == Digits(n / 10);
    }
  }

  lemma {:induction false} LeadingZero(s: string)
    ensures Value("0" + s) == Value(s)
  {
    if s == [] {
      assert ("0" + s)[..0] == [];
    } else {
      assert ("0" + s)[..|s|] == "0" + s[..|s| - 1];
      LeadingZero(s[..|s| - 1]);
    }
  }

  lemma PaddedValue(n: nat)
    ensures Value(Padded(n)) == n
  {
    DigitsValue(n);
    LeadingZero(Digits(n));
    LeadingZero("0" + Digits(n));
    assert "00" + Digits(n) == "0" + ("0" + Digits(n));
  }

  lemma {:induction false} DigitsAre(n: nat)
    ensures forall i :: 0 <= i < |Digits(n)| ==> '0' <= Digits(n)[i] <= '9'
    ensures n >= 1 ==> Digits(n)[0] != '0'
    ensures |Digits(n)| >= 3 <==> n >= 100
    ensures |Digits(n)| >= 2 <==> n >= 10
  {
    if n >= 10 {
      DigitsAre(n / 10);
    }
  }

  /** A group's name is g and its number in decimal with at least three digits, no more of them than needed. */
  lemma GidText(n: nat)
    ensures var g := Gid(n);
            && |g| >= 4 && g[0] == 'g' && (forall i :: 1 <= i < |g| ==> '0' <= g[i] <= '9') && Value(g[1..]) == n
            && (|g| > 4 ==> g[1] != '0')
  {
    DigitsAre(n);
    PaddedValue(n);
    assert Gid(n)[1..] == Padded(n);
  }

  /** Zero-padding to three places is injective for all numbers, also beyond 999. */
  lemma GidInjective(m: nat, n: nat)
    requires Gid(m) == Gid(n)
    ensures m == n
  {
    PaddedValue(m);
    PaddedValue(n);
    assert Gid(m)[1..] == Padded(m) && Gid(n)[1..] == Padded(n);
  }

  function Gids(n: nat): set<string> {
    if n == 0 then {} else Gids(n - 1) + {Gid(n)}
  }

  lemma {:induction false} GidsCount(n: nat)
    ensures |Gids(n)| == n
    ensures forall g <- Gids(n) :: exists m :: 1 <= m <= n && Gid(m) == g
  {
    if n > 0 {
      GidsCount(n - 1);
      if Gid(n) in Gids(n - 1) {
        var m :| 1 <= m <= n - 1 && Gid(m) == Gid(n);
        GidInjective(m, n);
      }
    }
  }

  lemma {:induction false} SubsetSize(a: set<string>, b: set<string>)
    requires a <= b
    ensures |a| <= |b|
  {
    if a != {} {
      var x :| x in a;
      SubsetSize(a - {x}, b - {x});
    }
  }

  lemma {:induction false} Pigeonhole(existing: set<string>, n: nat)
    requires Gids(n) <= existing
    ensures n <= |existing|
  {
    GidsCount(n);
    SubsetSize(Gids(n), existing);
  }

  /** The least number from n on that is not in use. */
  function Least(existing: set<string>, n: nat): (m: nat)
    requires n >= 1 && Gids(n - 1) <= existing
    ensures m >= n && Gid(m) !in existing && forall k :: n <= k < m ==> Gid(k) in existing
    decreases |existing| + 1 - n
  {
    Pigeonhole(existing, n - 1);
    if Gid(n) !in existing then n
    else
      Pigeonhole(existing, n);
      Least(existing, n + 1)
  }

  function NextOf(existing: set<string>): (g: string)
    ensures g !in existing
  {
    Gid(Least(existing, 1))
  }

  lemma NextIs(existing: set<string>) returns (n: nat)
    ensures n >= 1 && NextOf(existing) == Gid(n) && Gid(n) !in existing && forall m :: 1 <= m < n ==> Gid(m) in existing
  {
    n := Least(existing, 1);
  }

  /** next_gid: the least number not in use. The search ends because distinct numbers have distinct names. */
  method NextGid(existing: set<string>) returns (g: string, ghost n: nat)
    ensures n >= 1 && g == Gid(n) && g !in existing
    ensures forall m :: 1 <= m < n ==> Gid(m) in existing
    ensures g == NextOf(existing)
  {
    var i := 1;
    Pigeonhole(existing, 0);
    while Gid(i) in existing
      invariant 1 <= i <= |existing| + 1
      invariant Gids(i - 1) <= existing && Least(existing, 1) == Least(existing, i)
      invariant forall m :: 1 <= m < i ==> Gid(m) in existing
      decreases |existing| + 1 - i
    {
      Pigeonhole(existing, i);
      i := i + 1;
    }
    g, n := Gid(i), i;
  }
}
