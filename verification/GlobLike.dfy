// The compiler from shell globs to LIKE patterns (ops/infra/snapshot/pg_store.py:59-74). The target is the LIKE
// predicate of section 8.5 of ISO/IEC 9075:1992, with PostgreSQL's backslash as escape character.
module GlobLike {

  // ------------------------------------------------------------------ source language

  /** fnmatch on a glob without character classes: * any run, ? any character, anything else itself. */
  predicate Fnmatch(glob: string, s: string)
    decreases |glob| + |s|
  {
    if glob == [] then s == []
    else if glob[0] == '*' then Fnmatch(glob[1..], s) || (s != [] && Fnmatch(glob, s[1..]))
    else s != [] && (glob[0] == '?' || glob[0] == s[0]) && Fnmatch(glob[1..], s[1..])
  }

  // ------------------------------------------------------------------ target language

  /** Every escape character is followed by the character it escapes; PostgreSQL rejects other patterns. */
  predicate WellEscaped(pattern: string) {
    if pattern == [] then true
    else if pattern[0] == '\\' then |pattern| >= 2 && WellEscaped(pattern[2..])
    else WellEscaped(pattern[1..])
  }

  predicate Like(s: string, pattern: string)
    requires WellEscaped(pattern)
    decreases |pattern| + |s|
  {
    if pattern == [] then s == []
    else if pattern[0] == '%' then Like(s, pattern[1..]) || (s != [] && Like(s[1..], pattern))
    else if pattern[0] == '\\' then s != [] && s[0] == pattern[1] && Like(s[1..], pattern[2..])
    else s != [] && (pattern[0] == '_' || pattern[0] == s[0]) && Like(s[1..], pattern[1..])
  }

  // ------------------------------------------------------------------ the compiler

  /** str.replace of a one-character needle. */
  function Replace(s: string, c: char, to: string): string {
    if s == [] then [] else (if s[0] == c then to else [s[0]]) + Replace(s[1..], c, to)
  }

  function FiveReplaces(glob: string): string {
    Replace(Replace(Replace(Replace(Replace(glob, '\\', "\\\\"), '%', "\\%"), '_', "\\_"), '*', "%"), '?', "_")
  }

  datatype Translation = NotExpressible | Pattern(like: string)

  function GlobToLike(glob: string): Translation {
    if '[' in glob then NotExpressible else Pattern(FiveReplaces(glob))
  }

  // ------------------------------------------------------------------ five replaces are one map

  function Image(c: char): string {
    if c == '\\' then "\\\\"
    else if c == '%' then "\\%"
    else if c == '_' then "\\_"
    else if c == '*' then "%"
    else if c == '?' then "_"
    else [c]
  }

  function MapImage(glob: string): string {
    if glob == [] then [] else Image(glob[0]) + MapImage(glob[1..])
  }

  lemma {:induction false} ReplaceConcat(a: string, b: string, c: char, to: string)
    ensures Replace(a + b, c, to) == Replace(a, c, to) + Replace(b, c, to)
  {
    if a == [] {
      assert a + b == b;
    } else {
      assert (a + b)[1..] == a[1..] + b;
      ReplaceConcat(a[1..], b, c, to);
    }
  }

  lemma FiveReplacesConcat(a: string, b: string)
    ensures FiveReplaces(a + b) == FiveReplaces(a) + FiveReplaces(b)
  {
    var a1, b1 := Replace(a, '\\', "\\\\"), Replace(b, '\\', "\\\\");
    var a2, b2 := Replace(a1, '%', "\\%"), Replace(b1, '%', "\\%");
    var a3, b3 := Replace(a2, '_', "\\_"), Replace(b2, '_', "\\_");
    var a4, b4 := Replace(a3, '*', "%"), Replace(b3, '*', "%");
    ReplaceConcat(a, b, '\\', "\\\\");
    ReplaceConcat(a1, b1, '%', "\\%");
    ReplaceConcat(a2, b2, '_', "\\_");
    ReplaceConcat(a3, b3, '*', "%");
    ReplaceConcat(a4, b4, '?', "_");
  }

  lemma {:induction false} ReplaceOne(x: char, c: char, to: string)
    ensures Replace([x], c, to) == if x == c then to else [x]
  {
    assert [x][1..] == [];
  }

  lemma {:induction false} ReplacePair(x: char, y: char, c: char, to: string)
    requires x != c && y != c
    ensures Replace([x, y], c, to) == [x, y]
  {
    assert [x, y][1..] == [y];
    ReplaceOne(y, c, to);
  }

  /** An escaped character survives the later replaces as the pair it became. */
  lemma FiveReplacesOne(c: char)
    ensures FiveReplaces([c]) == Image(c)
  {
    ReplaceOne(c, '\\', "\\\\");
    if c == '\\' {
      ReplacePair('\\', '\\', '%', "\\%");
      ReplacePair('\\', '\\', '_', "\\_");
      ReplacePair('\\', '\\', '*', "%");
      ReplacePair('\\', '\\', '?', "_");
    } else {
      ReplaceOne(c, '%', "\\%");
      if c == '%' {
        ReplacePair('\\', '%', '_', "\\_");
        ReplacePair('\\', '%', '*', "%");
        ReplacePair('\\', '%', '?', "_");
      } else {
        ReplaceOne(c, '_', "\\_");
        if c == '_' {
          ReplacePair('\\', '_', '*', "%");
          ReplacePair('\\', '_', '?', "_");
        } else {
          ReplaceOne(c, '*', "%");
          ReplaceOne('%', '?', "_");
          ReplaceOne(c, '?', "_");
        }
      }
    }
  }

  /** No replace touches what an earlier one produced: the chain is a character-by-character translation. */
  lemma {:induction false} FiveReplacesAreOneMap(glob: string)
    ensures FiveReplaces(glob) == MapImage(glob)
  {
    if glob != [] {
      assert glob == [glob[0]] + glob[1..];
      FiveReplacesConcat([glob[0]], glob[1..]);
      FiveReplacesOne(glob[0]);
      FiveReplacesAreOneMap(glob[1..]);
    }
  }

  // ------------------------------------------------------------------ the translation preserves meaning

  /** The pattern never ends in a dangling escape. */
  lemma {:induction false} NeverDangling(glob: string)
    ensures WellEscaped(MapImage(glob))
  {
    if glob != [] {
      NeverDangling(glob[1..]);
    }
  }

  lemma {:induction false} MapImagePreserves(glob: string, s: string)
    ensures WellEscaped(MapImage(glob))
    ensures Fnmatch(glob, s) <==> Like(s, MapImage(glob))
    decreases |glob| + |s|
  {
    NeverDangling(glob);
    if glob != [] {
      NeverDangling(glob[1..]);
      if glob[0] == '*' {
        MapImagePreserves(glob[1..], s);
        if s != [] {
          MapImagePreserves(glob, s[1..]);
        }
      } else if s != [] {
        MapImagePreserves(glob[1..], s[1..]);
      }
    }
  }

  /** For every glob that is translated and every string, fnmatch accepts exactly when LIKE does. */
  lemma {:induction false} GlobToLikePreserves(glob: string, s: string)
    requires GlobToLike(glob).Pattern?
    ensures WellEscaped(GlobToLike(glob).like)
    ensures Fnmatch(glob, s) <==> Like(s, GlobToLike(glob).like)
  {
    FiveReplacesAreOneMap(glob);
    MapImagePreserves(glob, s);
  }

  // ------------------------------------------------------------------ what the wildcards stand for

  /** * stands for any run of characters, ? for any one, and everything else for itself; nothing matches nothing. */
  lemma {:induction false} FnmatchMeans(c: char, glob: string, s: string)
    ensures Fnmatch("*" + glob, s) <==> exists k :: 0 <= k <= |s| && Fnmatch(glob, s[k..])
    ensures Fnmatch("?" + glob, s) <==> s != [] && Fnmatch(glob, s[1..])
    ensures c != '*' && c != '?' ==> (Fnmatch([c] + glob, s) <==> s != [] && s[0] == c && Fnmatch(glob, s[1..]))
    ensures Fnmatch("", s) <==> s == ""
  {
    StarMatches(glob, s);
    assert ("?" + glob)[1..] == glob && ([c] + glob)[1..] == glob;
  }

  lemma {:induction false} StarMatches(glob: string, s: string)
    ensures Fnmatch("*" + glob, s) <==> exists k :: 0 <= k <= |s| && Fnmatch(glob, s[k..])
  {
    assert ("*" + glob)[1..] == glob && s[0..] == s;
    if s != [] {
      StarMatches(glob, s[1..]);
      if k :| 0 <= k <= |s[1..]| && Fnmatch(glob, s[1..][k..]) {
        assert s[k + 1..] == s[1..][k..];
      }
      if k :| 1 <= k <= |s| && Fnmatch(glob, s[k..]) {
        assert s[k..] == s[1..][k - 1..];
      }
    }
  }

  /** % stands for any run of characters, _ for any one, an escaped character and any other for itself. */
  lemma {:induction false} LikeMeans(c: char, pattern: string, s: string)
    requires WellEscaped(pattern)
    ensures var run, one, escaped, same := "%" + pattern, "_" + pattern, ['\\', c] + pattern, [c] + pattern;
            && WellEscaped(run) && (Like(s, run) <==> exists k :: 0 <= k <= |s| && Like(s[k..], pattern))
            && WellEscaped(one) && (Like(s, one) <==> s != [] && Like(s[1..], pattern))
            && WellEscaped(escaped) && (Like(s, escaped) <==> s != [] && s[0] == c && Like(s[1..], pattern))
            && (c !in "%_\\" ==> WellEscaped(same) && (Like(s, same) <==> s != [] && s[0] == c && Like(s[1..], pattern)))
    ensures Like(s, "") <==> s == ""
  {
    PercentMatches(pattern, s);
    assert ("_" + pattern)[1..] == pattern && ([c] + pattern)[1..] == pattern && (['\\', c] + pattern)[2..] == pattern;
    assert "%_\\"[0] == '%' && "%_\\"[1] == '_' && "%_\\"[2] == '\\';
  }

  lemma {:induction false} PercentMatches(pattern: string, s: string)
    requires WellEscaped(pattern)
    ensures WellEscaped("%" + pattern) && (Like(s, "%" + pattern) <==> exists k :: 0 <= k <= |s| && Like(s[k..], pattern))
  {
    assert ("%" + pattern)[1..] == pattern && s[0..] == s;
    if s != [] {
      PercentMatches(pattern, s[1..]);
      if k :| 0 <= k <= |s[1..]| && Like(s[1..][k..], pattern) {
        assert s[k + 1..] == s[1..][k..];
      }
      if k :| 1 <= k <= |s| && Like(s[k..], pattern) {
        assert s[k..] == s[1..][k - 1..];
      }
    }
  }
}
