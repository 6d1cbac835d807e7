// The env file of the mount service: parsing it and rewriting it in place (ops/services/setup/jfs.py:47-74).
module EnvFile {

  // ------------------------------------------------------------------ Python's line breaks and white space

  predicate IsBreak(c: char) {
    var n := c as int;
    10 <= n <= 13 || 0x1c <= n <= 0x1e || n == 0x85 || n == 0x2028 || n == 0x2029
  }

  predicate IsSpace(c: char) {
    var n := c as int;
    IsBreak(c) || n == 9 || n == 0x1f || n == 0x20 || n == 0xa0 || n == 0x1680 || 0x2000 <= n <= 0x200a || n == 0x202f || n == 0x205f || n == 0x3000
  }

  predicate OneLine(s: string) {
    forall i :: 0 <= i < |s| ==> !IsBreak(s[i])
  }

  function BreakAt(s: string): (i: nat)
    ensures i <= |s| && OneLine(s[..i]) && (i < |s| ==> IsBreak(s[i]))
  {
    if s == [] || IsBreak(s[0]) then 0
    else
      var i := 1 + BreakAt(s[1..]);
      assert s[..i] == [s[0]] + s[1..][..i - 1];
      i
  }

  /** str.splitlines: "\r\n" is one break; nothing follows the last break. */
  function SplitLines(s: string): (lines: seq<string>)
    ensures forall l <- lines :: OneLine(l)
    decreases |s|
  {
    if s == [] then []
    else
      var i := BreakAt(s);
      if i == |s| then [s[..i]]
      else if s[i] == '\r' && i + 1 < |s| && s[i + 1] == '\n' then [s[..i]] + SplitLines(s[i + 2..])
      else [s[..i]] + SplitLines(s[i + 1..])
  }

  function LStrip(s: string): string {
    if s != [] && IsSpace(s[0]) then LStrip(s[1..]) else s
  }

  function RStrip(s: string): string {
    if s != [] && IsSpace(s[|s| - 1]) then RStrip(s[..|s| - 1]) else s
  }

  function Strip(s: string): string {
    RStrip(LStrip(s))
  }

  // ------------------------------------------------------------------ one line

  function EqualsAt(s: string): (i: nat)
    ensures i <= |s| && '=' !in s[..i] && (i < |s| ==> s[i] == '=')
  {
    if s == [] || s[0] == '=' then 0
    else
      var i := 1 + EqualsAt(s[1..]);
      assert s[..i] == [s[0]] + s[1..][..i - 1];
      i
  }

  /** Not blank, not a comment, and with an equals sign. */
  predicate IsEntry(line: string) {
    var s := Strip(line);
    s != [] && s[0] != '#' && '=' in s
  }

  function KeyOf(line: string): string {
    Strip(Strip(line)[..EqualsAt(Strip(line))])
  }

  function ValueOf(line: string): string
    requires IsEntry(line)
  {
    var s := Strip(line);
    if EqualsAt(s) < |s| then Strip(s[EqualsAt(s) + 1..]) else []
  }

  // ------------------------------------------------------------------ parse

  /** Later lines win. */
  function ParseLines(lines: seq<string>): map<string, string> {
    if lines == [] then map[]
    else
      var rest, line := ParseLines(lines[..|lines| - 1]), lines[|lines| - 1];
      if IsEntry(line) then rest[KeyOf(line) := ValueOf(line)] else rest
  }

  function Parsed(text: string): map<string, string> {
    ParseLines(SplitLines(text))
  }

  method ParseEnv(text: string) returns (out: map<string, string>)
    ensures out == Parsed(text)
  {
    out := map[];
    var lines := SplitLines(text);
    var i := 0;
    while i < |lines|
      invariant 0 <= i <= |lines| && out == ParseLines(lines[..i])
    {
      assert lines[..i + 1][..i] == lines[..i];
      if IsEntry(lines[i]) {
        out := out[KeyOf(lines[i]) := ValueOf(lines[i])];
      }
      i := i + 1;
    }
    assert lines[..|lines|] == lines;
  }

  // ------------------------------------------------------------------ render

  /** The values to write, in dictionary order. */
  type Values = seq<(string, string)>

  function Lookup(values: Values): map<string, string> {
    if values == [] then map[] else Lookup(values[..|values| - 1])[values[|values| - 1].0 := values[|values| - 1].1]
  }

  function Entry(k: string, v: string): string {
    k + "=" + v
  }

  function NewLine(values: Values, line: string): string {
    if IsEntry(line) && KeyOf(line) in Lookup(values) then Entry(KeyOf(line), Lookup(values)[KeyOf(line)]) else line
  }

  function Rewritten(values: Values, lines: seq<string>): (r: seq<string>)
    ensures |r| == |lines| && forall i :: 0 <= i < |r| ==> r[i] == NewLine(values, lines[i])
  {
    seq(|lines|, i requires 0 <= i < |lines| => NewLine(values, lines[i]))
  }

  /** Keys that some entry line has. */
  function Keys(lines: seq<string>): set<string> {
    set line | line in lines && IsEntry(line) :: KeyOf(line)
  }

  /** Entries for the keys that no line has, in dictionary order. */
  function Missing(values: Values, seen: set<string>): seq<string> {
    if values == [] then []
    else
      var (k, v) := values[|values| - 1];
      Missing(values[..|values| - 1], seen) + if k in seen then [] else [Entry(k, v)]
  }

  function RenderLines(values: Values, lines: seq<string>): seq<string> {
    Rewritten(values, lines) + Missing(values, Keys(lines))
  }

  function Join(lines: seq<string>): string {
    if lines == [] then [] else Join(lines[..|lines| - 1]) + lines[|lines| - 1] + "\n"
  }

  /** "\n".join(lines) + "\n" */
  function Rendered(values: Values, text: string): string {
    var lines := RenderLines(values, SplitLines(text));
    if lines == [] then "\n" else Join(lines)
  }

  /** Every line that is not an entry for one of the keys stays, at its place; whatever is added comes after. */
  lemma {:induction false} OtherLinesStay(values: Values, lines: seq<string>, i: nat)
    requires i < |lines| && !(IsEntry(lines[i]) && KeyOf(lines[i]) in Lookup(values))
    ensures |RenderLines(values, lines)| >= |lines| && RenderLines(values, lines)[i] == lines[i]
  {
  }

  /** The loop over the lines. */
  method RewriteLines(values: Values, before: seq<string>) returns (lines: seq<string>, seen: set<string>)
    ensures lines == Rewritten(values, before) && seen == Keys(before) * Lookup(values).Keys
  {
    lines, seen := before, {};
    var i := 0;
    while i < |lines|
      invariant 0 <= i <= |lines| == |before|
      invariant forall j :: 0 <= j < |lines| ==> lines[j] == if j < i then NewLine(values, before[j]) else before[j]
      invariant seen == Keys(before[..i]) * Lookup(values).Keys
    {
      SeenNext(values, before, i);
      if IsEntry(lines[i]) {
        var k := KeyOf(lines[i]);
        if k in Lookup(values) {
          lines := lines[i := Entry(k, Lookup(values)[k])];
          seen := seen + {k};
        }
      }
      i := i + 1;
    }
    assert before[..|before|] == before;
  }

  /** The loop over the values that no line had. */
  method AppendMissing(values: Values, kept: seq<string>, seen: set<string>, ghost keys: set<string>) returns (lines: seq<string>)
    requires seen == keys * Lookup(values).Keys
    ensures lines == kept + Missing(values, keys)
  {
    lines := kept;
    var i := 0;
    while i < |values|
      invariant 0 <= i <= |values| && lines == kept + Missing(values[..i], keys)
    {
      assert values[..i + 1][..i] == values[..i];
      LookupHas(values, i);
      if values[i].0 !in seen {
        lines := lines + [Entry(values[i].0, values[i].1)];
      }
      i := i + 1;
    }
    assert values[..|values|] == values;
  }

  method RenderEnv(values: Values, original: string) returns (text: string)
    ensures text == Rendered(values, original)
  {
    var before := SplitLines(original);
    var lines, seen := RewriteLines(values, before);
    lines := AppendMissing(values, lines, seen, Keys(before));
    text := if lines == [] then "\n" else Join(lines);
  }

  lemma KeysNext(lines: seq<string>, i: nat)
    requires i < |lines|
    ensures Keys(lines[..i + 1]) == Keys(lines[..i]) + if IsEntry(lines[i]) then {KeyOf(lines[i])} else {}
  {
    assert lines[..i + 1] == lines[..i] + [lines[i]];
  }

  lemma {:induction false} SeenNext(values: Values, lines: seq<string>, i: nat)
    requires i < |lines|
    ensures var known := Lookup(values).Keys;
            Keys(lines[..i + 1]) * known
            == Keys(lines[..i]) * known + if IsEntry(lines[i]) && KeyOf(lines[i]) in known then {KeyOf(lines[i])} else {}
  {
    KeysNext(lines, i);
  }

  lemma {:induction false} LookupHas(values: Values, i: nat)
    requires i < |values|
    ensures values[i].0 in Lookup(values)
  {
    if i < |values| - 1 {
      LookupHas(values[..|values| - 1], i);
    }
  }

  // ------------------------------------------------------------------ well-formed values

  predicate KeyOk(k: string) {
    Strip(k) == k && '=' !in k && OneLine(k) && (k != [] ==> k[0] != '#')
  }

  predicate ValueOk(v: string) {
    Strip(v) == v && OneLine(v)
  }

  ghost predicate WellFormed(values: Values) {
    && (forall p <- values :: KeyOk(p.0) && ValueOk(p.1))
    && (forall i, j :: 0 <= i < j < |values| ==> values[i].0 != values[j].0)
  }

  lemma {:induction false} LStripShort(s: string)
    ensures |LStrip(s)| <= |s|
    ensures s != [] && IsSpace(s[0]) ==> |LStrip(s)| < |s|
  {
    if s != [] && IsSpace(s[0]) {
      LStripShort(s[1..]);
    }
  }

  lemma {:induction false} RStripShort(s: string)
    ensures |RStrip(s)| <= |s|
    ensures s != [] && IsSpace(s[|s| - 1]) ==> |RStrip(s)| < |s|
  {
    if s != [] && IsSpace(s[|s| - 1]) {
      RStripShort(s[..|s| - 1]);
    }
  }

  /** A text is its own strip exactly when neither end is white space. */
  lemma StripFixed(s: string)
    ensures Strip(s) == s <==> s == [] || (!IsSpace(s[0]) && !IsSpace(s[|s| - 1]))
  {
    LStripShort(s);
    RStripShort(LStrip(s));
    RStripShort(s);
  }

  lemma {:induction false} EqualsAfter(k: string, rest: string)
    requires '=' !in k
    ensures EqualsAt(k + "=" + rest) == |k|
  {
    if k == [] {
      assert (k + "=" + rest)[0] == '=';
    } else {
      assert (k + "=" + rest)[1..] == k[1..] + "=" + rest;
      EqualsAfter(k[1..], rest);
    }
  }

  /** A rendered entry reads back as its key and value. */
  lemma EntryReadsBack(k: string, v: string)
    requires KeyOk(k) && ValueOk(v)
    ensures OneLine(Entry(k, v)) && IsEntry(Entry(k, v)) && KeyOf(Entry(k, v)) == k && ValueOf(Entry(k, v)) == v
  {
    var e := Entry(k, v);
    StripFixed(k);
    StripFixed(v);
    EntryStripped(k, v);
    EqualsAfter(k, v);
    assert e[..|k|] == k && e[|k| + 1..] == v && e[|k|] == '=';
    forall i | 0 <= i < |e|
      ensures !IsBreak(e[i])
    {
      assert e[i] == if i < |k| then k[i] else if i == |k| then '=' else v[i - |k| - 1];
    }
  }

  lemma EntryStripped(k: string, v: string)
    requires KeyOk(k) && ValueOk(v)
    ensures Strip(Entry(k, v)) == Entry(k, v) && Entry(k, v)[0] != '#'
  {
    var e := Entry(k, v);
    StripFixed(k);
    StripFixed(v);
    assert e[0] == if k == [] then '=' else k[0];
    assert e[|e| - 1] == if v == [] then '=' else v[|v| - 1];
    StripFixed(e);
  }

  lemma {:induction false} LookupOk(values: Values, k: string)
    requires WellFormed(values) && k in Lookup(values)
    ensures KeyOk(k) && ValueOk(Lookup(values)[k]) && (k, Lookup(values)[k]) in values
  {
    var last := values[|values| - 1];
    if last.0 != k {
      assert forall p <- values[..|values| - 1] :: p in values;
      LookupOk(values[..|values| - 1], k);
    }
  }

  // ------------------------------------------------------------------ reading back what was rendered

  lemma {:induction false} JoinFront(lines: seq<string>)
    requires lines != []
    ensures Join(lines) == lines[0] + "\n" + Join(lines[1..])
  {
    if |lines| > 1 {
      JoinFront(lines[..|lines| - 1]);
      assert lines[..|lines| - 1][1..] == lines[1..][..|lines| - 2];
    }
  }

  lemma {:induction false} SplitJoin(lines: seq<string>)
    requires forall l <- lines :: OneLine(l)
    ensures SplitLines(Join(lines)) == lines
  {
    if lines != [] {
      JoinFront(lines);
      FirstLine(lines[0], "\n", Join(lines[1..]));
      SplitJoin(lines[1..]);
      assert lines == [lines[0]] + lines[1..];
    }
  }

  lemma {:induction false} MissingOk(values: Values, seen: set<string>, l: string)
    requires WellFormed(values) && l in Missing(values, seen)
    ensures exists p :: p in values && l == Entry(p.0, p.1) && p.0 !in seen
  {
    var last := values[|values| - 1];
    if !(last.0 !in seen && l == Entry(last.0, last.1)) {
      MissingOk(values[..|values| - 1], seen, l);
    }
  }

  lemma RenderedLines(values: Values, lines: seq<string>)
    requires WellFormed(values) && forall l <- lines :: OneLine(l)
    ensures forall l <- RenderLines(values, lines) :: OneLine(l)
  {
    forall i | 0 <= i < |lines|
      ensures OneLine(NewLine(values, lines[i]))
    {
      assert lines[i] in lines;
      if IsEntry(lines[i]) && KeyOf(lines[i]) in Lookup(values) {
        LookupOk(values, KeyOf(lines[i]));
        EntryReadsBack(KeyOf(lines[i]), Lookup(values)[KeyOf(lines[i])]);
      }
    }
    forall l | l in Missing(values, Keys(lines))
      ensures OneLine(l)
    {
      MissingOk(values, Keys(lines), l);
      var p :| p in values && l == Entry(p.0, p.1) && p.0 !in Keys(lines);
      EntryReadsBack(p.0, p.1);
    }
  }

  /** Splitting a rendered file gives the rendered lines, but for the one empty line of a file without any. */
  lemma {:induction false} SplitRendered(values: Values, text: string)
    requires WellFormed(values)
    ensures var lines := RenderLines(values, SplitLines(text));
            SplitLines(Rendered(values, text)) == if lines == [] then [""] else lines
  {
    var lines := RenderLines(values, SplitLines(text));
    RenderedLines(values, SplitLines(text));
    if lines == [] {
      FirstLine("", "\n", "");
      assert "" + "\n" + "" == "\n";
    } else {
      SplitJoin(lines);
    }
  }

  lemma {:induction false} ParseConcat(a: seq<string>, b: seq<string>)
    ensures ParseLines(a + b) == ParseLines(a) + ParseLines(b)
  {
    if b == [] {
      assert a + b == a;
    } else {
      assert (a + b)[..|a + b| - 1] == a + b[..|b| - 1];
      ParseConcat(a, b[..|b| - 1]);
    }
  }

  lemma {:induction false} ParseKeys(lines: seq<string>)
    ensures ParseLines(lines).Keys == Keys(lines)
  {
    if lines != [] {
      var k := |lines| - 1;
      ParseKeys(lines[..k]);
      KeysNext(lines, k);
      assert lines[..k + 1] == lines;
    }
  }

  /** m with the values of v at the keys they share. */
  function Overridden(m: map<string, string>, v: map<string, string>): (r: map<string, string>)
    ensures r.Keys == m.Keys
  {
    map k | k in m :: if k in v then v[k] else m[k]
  }

  lemma {:induction false} NewLineReads(values: Values, line: string)
    requires WellFormed(values)
    ensures IsEntry(NewLine(values, line)) <==> IsEntry(line)
    ensures IsEntry(line) ==> KeyOf(NewLine(values, line)) == KeyOf(line)
    ensures IsEntry(line) ==> ValueOf(NewLine(values, line)) == if KeyOf(line) in Lookup(values) then Lookup(values)[KeyOf(line)] else ValueOf(line)
  {
    if IsEntry(line) && KeyOf(line) in Lookup(values) {
      LookupOk(values, KeyOf(line));
      EntryReadsBack(KeyOf(line), Lookup(values)[KeyOf(line)]);
    }
  }

  lemma {:induction false} ParseRewritten(values: Values, lines: seq<string>)
    requires WellFormed(values)
    ensures ParseLines(Rewritten(values, lines)) == Overridden(ParseLines(lines), Lookup(values))
  {
    hide IsEntry, KeyOf, ValueOf, NewLine, WellFormed, Overridden;
    if lines == [] {
      OverriddenMore(map[], Lookup(values), "", "");
    } else {
      var k := |lines| - 1;
      assert Rewritten(values, lines)[..k] == Rewritten(values, lines[..k]);
      ParseRewritten(values, lines[..k]);
      NewLineReads(values, lines[k]);
      if IsEntry(lines[k]) {
        OverriddenMore(ParseLines(lines[..k]), Lookup(values), KeyOf(lines[k]), ValueOf(lines[k]));
      }
    }
  }

  lemma OverriddenMore(m: map<string, string>, v: map<string, string>, k: string, x: string)
    ensures Overridden(map[], v) == map[]
    ensures Overridden(m[k := x], v) == Overridden(m, v)[k := if k in v then v[k] else x]
  {
  }

  lemma {:induction false} ParseMore(lines: seq<string>, k: string, v: string)
    requires KeyOk(k) && ValueOk(v)
    ensures ParseLines(lines + [Entry(k, v)]) == ParseLines(lines)[k := v]
  {
    EntryReadsBack(k, v);
    assert (lines + [Entry(k, v)])[..|lines|] == lines;
  }

  lemma {:induction false} ParseMissing(values: Values, seen: set<string>)
    requires WellFormed(values)
    ensures ParseLines(Missing(values, seen)) == Lookup(values) - seen
  {
    if values != [] {
      var rest, last := values[..|values| - 1], values[|values| - 1];
      assert last in values && forall p <- rest :: p in values;
      ParseMissing(rest, seen);
      ParseMore(Missing(rest, seen), last.0, last.1);
      hide ParseLines, Entry, KeyOk, ValueOk, WellFormed;
      assert Missing(rest, seen) + [] == Missing(rest, seen);
    }
  }

  /** Parsing a rendered file gives the parse of the original overridden by the values, whatever keys the text repeats. */
  lemma {:induction false} ParseRendered(values: Values, text: string)
    requires WellFormed(values)
    ensures Parsed(Rendered(values, text)) == Parsed(text) + Lookup(values)
  {
    var lines := SplitLines(text);
    SplitRendered(values, text);
    ParseConcat(Rewritten(values, lines), Missing(values, Keys(lines)));
    ParseRewritten(values, lines);
    ParseMissing(values, Keys(lines));
    ParseKeys(lines);
  }

  // ------------------------------------------------------------------ rendering twice

  lemma {:induction false} NothingMissing(values: Values, seen: set<string>)
    requires Lookup(values).Keys <= seen
    ensures Missing(values, seen) == []
  {
    if values != [] {
      LookupHas(values, |values| - 1);
      NothingMissing(values[..|values| - 1], seen);
    }
  }

  lemma RewrittenTwice(values: Values, line: string)
    requires WellFormed(values)
    ensures NewLine(values, NewLine(values, line)) == NewLine(values, line)
  {
    NewLineReads(values, line);
  }

  lemma {:induction false} MissingStays(values: Values, seen: set<string>, l: string)
    requires WellFormed(values) && l in Missing(values, seen)
    ensures NewLine(values, l) == l
  {
    MissingOk(values, seen, l);
    var p :| p in values && l == Entry(p.0, p.1) && p.0 !in seen;
    EntryReadsBack(p.0, p.1);
    LookupIs(values, p);
  }

  lemma {:induction false} LookupIs(values: Values, p: (string, string))
    requires WellFormed(values) && p in values
    ensures p.0 in Lookup(values) && Lookup(values)[p.0] == p.1
  {
    var rest, last := values[..|values| - 1], values[|values| - 1];
    if p != last {
      assert p in rest;
      LookupIs(rest, p);
      var i :| 0 <= i < |rest| && rest[i] == p;
      assert values[i] == p;
    }
  }

  lemma RenderLinesTwice(values: Values, lines: seq<string>)
    requires WellFormed(values)
    ensures var once := RenderLines(values, lines); RenderLines(values, once) == once
  {
    var once := RenderLines(values, lines);
    var missing := Missing(values, Keys(lines));
    forall i | 0 <= i < |once|
      ensures NewLine(values, once[i]) == once[i]
    {
      if i < |lines| {
        RewrittenTwice(values, lines[i]);
      } else {
        assert once[i] == missing[i - |lines|];
        MissingStays(values, Keys(lines), once[i]);
      }
    }
    assert Rewritten(values, once) == once;
    ParseConcat(Rewritten(values, lines), missing);
    ParseRewritten(values, lines);
    ParseMissing(values, Keys(lines));
    ParseKeys(lines);
    ParseKeys(once);
    NothingMissing(values, Keys(once));
  }

  /** Rendering the same values again changes nothing. */
  lemma RenderTwice(values: Values, text: string)
    requires WellFormed(values)
    ensures Rendered(values, Rendered(values, text)) == Rendered(values, text)
  {
    var lines := SplitLines(text);
    SplitRendered(values, text);
    RenderLinesTwice(values, lines);
    if RenderLines(values, lines) == [] {
      OneBlankLine(values);
    }
  }

  lemma OneBlankLine(values: Values)
    ensures values == [] ==> RenderLines(values, [""]) == [""] && Join([""]) == "\n"
    ensures forall lines :: RenderLines(values, lines) == [] ==> values == []
  {
    assert [""][..0] == [];
    assert Strip("") == "";
    forall lines
      ensures RenderLines(values, lines) == [] ==> values == []
    {
      if RenderLines(values, lines) == [] {
        assert lines == [];
        AllMissing(values);
      }
    }
  }

  lemma {:induction false} AllMissing(values: Values)
    ensures |Missing(values, {})| == |values|
  {
    if values != [] {
      AllMissing(values[..|values| - 1]);
    }
  }

  // ------------------------------------------------------------------ what each line of a text gives

  lemma BreaksAndSpaces(c: char)
    ensures IsBreak(c) <==> c as int in {0x0a, 0x0b, 0x0c, 0x0d, 0x1c, 0x1d, 0x1e, 0x85, 0x2028, 0x2029}
    ensures IsSpace(c) <==> IsBreak(c) || c as int in {0x09, 0x1f, 0x20, 0xa0, 0x1680, 0x2000, 0x2001, 0x2002, 0x2003, 0x2004, 0x2005, 0x2006,
                                                       0x2007, 0x2008, 0x2009, 0x200a, 0x202f, 0x205f, 0x3000}
  {
  }

  predicate Blank(s: string) {
    forall i :: 0 <= i < |s| ==> IsSpace(s[i])
  }

  /** No white space at either end. */
  predicate Trimmed(s: string) {
    s == [] || (!IsSpace(s[0]) && !IsSpace(s[|s| - 1]))
  }

  lemma {:induction false} LStripBlank(left: string, core: string)
    requires Blank(left) && (core == [] || !IsSpace(core[0]))
    ensures LStrip(left + core) == core
  {
    if left != [] {
      assert (left + core)[1..] == left[1..] + core;
      LStripBlank(left[1..], core);
    } else {
      assert left + core == core;
    }
  }

  lemma {:induction false} RStripBlank(core: string, right: string)
    requires Blank(right) && (core == [] || !IsSpace(core[|core| - 1]))
    ensures RStrip(core + right) == core
  {
    if right != [] {
      assert (core + right)[..|core + right| - 1] == core + right[..|right| - 1];
      RStripBlank(core, right[..|right| - 1]);
    } else {
      assert core + right == core;
    }
  }

  /** strip takes off exactly the white space at both ends. */
  lemma StripIs(left: string, core: string, right: string)
    requires Blank(left) && Blank(right) && Trimmed(core)
    ensures Strip(left + core + right) == core
  {
    if core == [] {
      BlankJoin(left, right);
      LStripBlank(left + right, []);
      assert left + core + right == left + right + [];
    } else {
      assert left + core + right == left + (core + right) && (core + right)[0] == core[0];
      LStripBlank(left, core + right);
      RStripBlank(core, right);
    }
  }

  lemma BlankJoin(a: string, b: string)
    requires Blank(a) && Blank(b)
    ensures Blank(a + b)
  {
  }

  /** Blank lines, comments and lines without an equals sign give nothing, wherever the text starts on the line. */
  lemma NoEntry(left: string, core: string, right: string)
    requires Blank(left) && Blank(right) && Trimmed(core) && (core == [] || core[0] == '#' || '=' !in core)
    ensures !IsEntry(left + core + right)
  {
    StripIs(left, core, right);
  }

  /** Any other line gives the text before its first equals sign and the text after it, both without white space at their ends. */
  lemma GivesEntry(left: string, k: string, kr: string, vl: string, v: string, right: string)
    requires Blank(left) && Blank(kr) && Blank(vl) && Blank(right) && Trimmed(k) && Trimmed(v)
    requires '=' !in k && (if k == [] then kr == [] else k[0] != '#')
    ensures var line := left + (k + kr + "=" + vl + v) + right; IsEntry(line) && KeyOf(line) == k && ValueOf(line) == v
  {
    if v != [] {
      var core := k + kr + "=" + vl + v;
      StripIs(left, core, right);
      EntryOfCore(k, kr, vl, v, left + core + right);
    } else {
      var core := k + kr + "=";
      BlankJoin(vl, right);
      assert left + (k + kr + "=" + vl + v) + right == left + core + (vl + right);
      StripIs(left, core, vl + right);
      EntryOfCore(k, kr, [], [], left + core + (vl + right));
    }
  }

  lemma EntryOfCore(k: string, kr: string, vl: string, v: string, line: string)
    requires Blank(kr) && Blank(vl) && Trimmed(k) && Trimmed(v) && '=' !in k && (if k == [] then kr == [] else k[0] != '#')
    requires Strip(line) == k + kr + "=" + vl + v
    ensures IsEntry(line) && KeyOf(line) == k && ValueOf(line) == v
  {
    var s := Strip(line);
    assert '=' !in kr by {
      assert !IsSpace('=');
    }
    assert s == (k + kr) + "=" + (vl + v) && s[|k + kr|] == '=';
    EqualsAfter(k + kr, vl + v);
    assert s[..|k + kr|] == [] + k + kr && s[|k + kr| + 1..] == vl + v + [];
    StripIs([], k, kr);
    StripIs(vl, v, []);
  }

  lemma {:induction false} BreakAfter(line: string, rest: string)
    requires OneLine(line) && rest != [] && IsBreak(rest[0])
    ensures BreakAt(line + rest) == |line|
  {
    if line == [] {
      assert line + rest == rest;
    } else {
      assert (line + rest)[1..] == line[1..] + rest;
      BreakAfter(line[1..], rest);
    }
  }

  /** A line break ends a line; a carriage return and a line feed together are one break. */
  lemma {:induction false} FirstLine(line: string, br: string, rest: string)
    requires OneLine(line) && (br == "\r\n" || (|br| == 1 && IsBreak(br[0]) && !(br == "\r" && rest != [] && rest[0] == '\n')))
    ensures SplitLines(line + br + rest) == [line] + SplitLines(rest)
  {
    var s := line + br + rest;
    assert s == line + (br + rest) && IsBreak((br + rest)[0]);
    BreakAfter(line, br + rest);
    assert s[..|line|] == line && s[|line| + |br|..] == rest;
    assert s[|line|] == br[0];
    if br == "\r\n" {
      assert s[|line| + 1] == '\n';
    } else if rest != [] {
      assert s[|line| + 1] == rest[0];
    }
  }

  /** So a text is read line by line from its start, later entries winning. */
  lemma ReadsFirstLine(line: string, br: string, rest: string)
    requires OneLine(line) && (br == "\r\n" || (|br| == 1 && IsBreak(br[0]) && !(br == "\r" && rest != [] && rest[0] == '\n')))
    ensures Parsed(line + br + rest) == (if IsEntry(line) then map[KeyOf(line) := ValueOf(line)] else map[]) + Parsed(rest)
  {
    FirstLine(line, br, rest);
    ParseConcat([line], SplitLines(rest));
    assert [line][..0] == [] && ParseLines([line]) == if IsEntry(line) then map[KeyOf(line) := ValueOf(line)] else map[];
  }

  /** A line that is an entry for a key with a new value becomes that key, an equals sign and the value. */
  lemma EntryRewritten(values: Values, lines: seq<string>, i: nat)
    requires WellFormed(values) && i < |lines| && IsEntry(lines[i])
    ensures forall j :: 0 <= j < |values| && values[j].0 == KeyOf(lines[i]) ==>
              |RenderLines(values, lines)| > i && RenderLines(values, lines)[i] == values[j].0 + "=" + values[j].1
  {
    forall j | 0 <= j < |values| && values[j].0 == KeyOf(lines[i])
      ensures values[j].0 in Lookup(values) && Lookup(values)[values[j].0] == values[j].1
    {
      LookupIs(values, values[j]);
    }
  }
}
