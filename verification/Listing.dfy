// ops list: part of the filter goes to SQL, all of it is applied again in memory
// (ops/services/list/list.py:60-154, ops/infra/snapshot/pg_store.py:44-121, ops/core/metrics.py).
module Listing {
  import opened Prelude
  import opened Ordering
  import opened GlobLike

  // ------------------------------------------------------------------ numbers and rows

  /** A double: rounding plays no part here, the special values do. */
  datatype Num = NaN | NegInf | PosInf | Fin(r: real)

  function Abs(v: Num): Num {
    match v
    case NegInf => PosInf
    case Fin(r) => Fin(if r < 0.0 then -r else r)
    case _ => v
  }

  /** Column name to value; a missing entry is NULL. fields and tables are array columns. */
  datatype Snapshot = Snapshot(fields: Option<seq<string>>, tables: Option<seq<string>>, columns: map<string, Num>)

  datatype Row = Row(name: string, status: Option<string>, snap: Option<Snapshot>)

  /** A registered metric: its column, and whether only its magnitude counts. */
  datatype MetricSpec = MetricSpec(column: string, absolute: bool)

  const SNAPSHOT_METRICS: map<string, MetricSpec> := map[
    "ret" := MetricSpec("ret", false),
    "shrp" := MetricSpec("shrp", false),
    "mdd" := MetricSpec("mdd", false),
    "tvr" := MetricSpec("tvr", false),
    "fitness" := MetricSpec("fitness", false),
    "bcorr" := MetricSpec("max_bcorr", true),
    "delay" := MetricSpec("delay", false)
  ]

  datatype Op = Gt | Ge | Lt | Le | Eq | Ne

  /** A parsed --filter-by condition; field and tables ignore their operator. */
  datatype Filter = Tables(op: Op, glob: string) | Field(op: Op, value: string) | Metric(key: string, op: Op, text: string)

  // ------------------------------------------------------------------ in memory

  function MetricValue(snap: Option<Snapshot>, key: string): Option<Num> {
    if key !in SNAPSHOT_METRICS || snap.None? then None
    else
      var spec := SNAPSHOT_METRICS[key];
      if spec.column !in snap.value.columns then None
      else Some(if spec.absolute then Abs(snap.value.columns[spec.column]) else snap.value.columns[spec.column])
  }

  predicate PyLess(a: Num, b: Num) {
    match (a, b)
    case (NaN, _) => false
    case (_, NaN) => false
    case (Fin(x), Fin(y)) => x < y
    case (NegInf, _) => b != NegInf
    case (_, PosInf) => a != PosInf
    case _ => false
  }

  /** IEEE comparison: nothing compares with NaN. */
  predicate PyCompare(a: Num, op: Op, b: Num)
    requires op != Ne
  {
    match op
    case Gt => PyLess(b, a)
    case Lt => PyLess(a, b)
    case Ge => PyLess(b, a) || (a == b && a != NaN)
    case Le => PyLess(a, b) || (a == b && a != NaN)
    case Eq => a == b && a != NaN
  }

  /** The two library functions the filters rest on, left open: float() of a text, and fnmatch on character classes. */
  datatype Library = Library(float: string -> Option<Num>, classes: (string, string) -> bool)

  predicate GlobAccepts(lib: Library, glob: string, t: string) {
    if '[' in glob then lib.classes(glob, t) else Fnmatch(glob, t)
  }

  /** One condition on one row; a metric condition with != keeps every row. */
  predicate Satisfies(lib: Library, x: Row, f: Filter) {
    match f
    case Tables(_, glob) =>
      x.snap.Some? && x.snap.value.tables.Some? && exists t :: t in x.snap.value.tables.value && GlobAccepts(lib, glob, t)
    case Field(_, value) => x.snap.Some? && x.snap.value.fields.Some? && value in x.snap.value.fields.value
    case Metric(key, op, text) =>
      op == Ne ||
      (lib.float(text).Some? && MetricValue(x.snap, key).Some? && PyCompare(MetricValue(x.snap, key).value, op, lib.float(text).value))
  }

  predicate SatisfiesAll(lib: Library, x: Row, fs: seq<Filter>) {
    forall i :: 0 <= i < |fs| ==> Satisfies(lib, x, fs[i])
  }

  /** float() of every metric condition succeeds, != included. */
  predicate Parses(lib: Library, fs: seq<Filter>) {
    forall i :: 0 <= i < |fs| && fs[i].Metric? ==> lib.float(fs[i].text).Some?
  }

  function Keep(lib: Library, rows: seq<Row>, f: Filter): seq<Row> {
    if rows == [] then []
    else Keep(lib, rows[..|rows| - 1], f) + if Satisfies(lib, rows[|rows| - 1], f) then [rows[|rows| - 1]] else []
  }

  function KeepAll(lib: Library, rows: seq<Row>, fs: seq<Filter>): seq<Row> {
    if rows == [] then []
    else KeepAll(lib, rows[..|rows| - 1], fs) + if SatisfiesAll(lib, rows[|rows| - 1], fs) then [rows[|rows| - 1]] else []
  }

  lemma {:induction false} KeepAfterKeepAll(lib: Library, rows: seq<Row>, fs: seq<Filter>, f: Filter)
    ensures Keep(lib, KeepAll(lib, rows, fs), f) == KeepAll(lib, rows, fs + [f])
  {
    if rows != [] {
      var x := rows[|rows| - 1];
      KeepAfterKeepAll(lib, rows[..|rows| - 1], fs, f);
      var init := KeepAll(lib, rows[..|rows| - 1], fs);
      if SatisfiesAll(lib, x, fs) {
        assert (init + [x])[..|init|] == init;
      } else {
        assert init + [] == init;
      }
      SatisfiesOneMore(lib, x, fs, f);
    }
  }

  lemma SatisfiesOneMore(lib: Library, x: Row, fs: seq<Filter>, f: Filter)
    ensures SatisfiesAll(lib, x, fs + [f]) <==> SatisfiesAll(lib, x, fs) && Satisfies(lib, x, f)
  {
    if SatisfiesAll(lib, x, fs + [f]) {
      assert (fs + [f])[|fs|] == f;
      assert forall i :: 0 <= i < |fs| ==> (fs + [f])[i] == fs[i];
    }
  }

  lemma {:induction false} KeepAllOfNone(lib: Library, rows: seq<Row>)
    ensures KeepAll(lib, rows, []) == rows
  {
    if rows != [] {
      KeepAllOfNone(lib, rows[..|rows| - 1]);
    }
  }

  /** One filter's list comprehension. */
  method Comprehension(lib: Library, rows: seq<Row>, f: Filter) returns (r: seq<Row>)
    ensures r == Keep(lib, rows, f)
  {
    r := [];
    var i := 0;
    while i < |rows|
      invariant 0 <= i <= |rows| && r == Keep(lib, rows[..i], f)
    {
      assert rows[..i + 1][..i] == rows[..i];
      if Satisfies(lib, rows[i], f) {
        r := r + [rows[i]];
      }
      i := i + 1;
    }
    assert rows[..|rows|] == rows;
  }

  /** apply_filters: fails exactly when some metric threshold is not a number, else keeps, in order, the rows that
      satisfy every condition. */
  method ApplyFilters(lib: Library, rows: seq<Row>, fs: seq<Filter>) returns (r: Option<seq<Row>>)
    ensures r == if Parses(lib, fs) then Some(KeepAll(lib, rows, fs)) else None
  {
    var result := rows;
    var i := 0;
    KeepAllOfNone(lib, rows);
    assert fs[..0] == [];
    while i < |fs|
      invariant 0 <= i <= |fs| && result == KeepAll(lib, rows, fs[..i])
      invariant Parses(lib, fs[..i])
    {
      var f := fs[i];
      assert fs[..i + 1] == fs[..i] + [f];
      KeepAfterKeepAll(lib, rows, fs[..i], f);
      if f.Metric? && lib.float(f.text).None? {
        return None;
      }
      result := Comprehension(lib, result, f);
      i := i + 1;
    }
    assert fs[..|fs|] == fs;
    return Some(result);
  }

  // ------------------------------------------------------------------ which rows a condition keeps

  /** Each row is kept as often as it occurred, if it meets every condition, and otherwise not at all. */
  lemma {:induction false} KeptExactly(lib: Library, rows: seq<Row>, fs: seq<Filter>, x: Row)
    ensures x in KeepAll(lib, rows, fs) <==> x in rows && forall i :: 0 <= i < |fs| ==> Satisfies(lib, x, fs[i])
    ensures multiset(KeepAll(lib, rows, fs))[x] == if forall i :: 0 <= i < |fs| ==> Satisfies(lib, x, fs[i]) then multiset(rows)[x] else 0
  {
    if rows != [] {
      var init, last := rows[..|rows| - 1], rows[|rows| - 1];
      KeptExactly(lib, init, fs, x);
      assert rows == init + [last];
      assert KeepAll(lib, rows, fs) == KeepAll(lib, init, fs) + if SatisfiesAll(lib, last, fs) then [last] else [];
      hide KeepAll, Satisfies;
    }
  }

  lemma {:induction false} KeptByOne(lib: Library, rows: seq<Row>, f: Filter, x: Row)
    requires x in rows
    ensures x in KeepAll(lib, rows, [f]) <==> Satisfies(lib, x, f)
  {
    KeptExactly(lib, rows, [f], x);
    assert [f][0] == f;
  }

  /** Several conditions keep what each of them keeps alone. */
  lemma {:induction false} KeptByAll(lib: Library, rows: seq<Row>, fs: seq<Filter>, x: Row)
    requires x in rows
    ensures x in KeepAll(lib, rows, fs) <==> forall i :: 0 <= i < |fs| ==> x in KeepAll(lib, rows, [fs[i]])
  {
    KeptExactly(lib, rows, fs, x);
    hide KeepAll, Satisfies;
    forall i | 0 <= i < |fs|
      ensures x in KeepAll(lib, rows, [fs[i]]) <==> Satisfies(lib, x, fs[i])
    {
      KeptByOne(lib, rows, fs[i], x);
    }
  }

  /** A number in a column and a threshold that is a number: the five comparisons of reals, and != keeps everything. */
  lemma {:induction false} FiniteThreshold(lib: Library, rows: seq<Row>, x: Row, key: string, text: string, v: real, t: real)
    requires x in rows && x.snap.Some? && key in {"ret", "shrp", "mdd", "tvr", "fitness", "delay"}
    requires key in x.snap.value.columns && x.snap.value.columns[key] == Fin(v) && lib.float(text) == Some(Fin(t))
    ensures x in KeepAll(lib, rows, [Metric(key, Gt, text)]) <==> v > t
    ensures x in KeepAll(lib, rows, [Metric(key, Ge, text)]) <==> v >= t
    ensures x in KeepAll(lib, rows, [Metric(key, Lt, text)]) <==> v < t
    ensures x in KeepAll(lib, rows, [Metric(key, Le, text)]) <==> v <= t
    ensures x in KeepAll(lib, rows, [Metric(key, Eq, text)]) <==> v == t
    ensures x in KeepAll(lib, rows, [Metric(key, Ne, text)])
  {
    hide KeepAll, MetricValue, SatisfiesAll;
    MetricColumns(x.snap.value);
    assert MetricValue(x.snap, key) == Some(Fin(v));
    KeptByEach(lib, rows, key, text, x);
  }

  /** bcorr compares the magnitude of max_bcorr. */
  lemma {:induction false} MagnitudeThreshold(lib: Library, rows: seq<Row>, x: Row, text: string, v: real, t: real)
    requires x in rows && x.snap.Some? && "max_bcorr" in x.snap.value.columns && x.snap.value.columns["max_bcorr"] == Fin(v)
    requires lib.float(text) == Some(Fin(t))
    ensures x in KeepAll(lib, rows, [Metric("bcorr", Gt, text)]) <==> v > t || -v > t
    ensures x in KeepAll(lib, rows, [Metric("bcorr", Ge, text)]) <==> v >= t || -v >= t
    ensures x in KeepAll(lib, rows, [Metric("bcorr", Lt, text)]) <==> -t < v < t
    ensures x in KeepAll(lib, rows, [Metric("bcorr", Le, text)]) <==> -t <= v <= t
    ensures x in KeepAll(lib, rows, [Metric("bcorr", Eq, text)]) <==> t >= 0.0 && (v == t || v == -t)
  {
    hide KeepAll, MetricValue, SatisfiesAll;
    MetricColumns(x.snap.value);
    KeptByEach(lib, rows, "bcorr", text, x);
  }

  /** Whatever the numbers: >= is > or =, <= is < or =, and no row is both above and below. */
  lemma {:induction false} ThresholdsCombine(lib: Library, rows: seq<Row>, x: Row, key: string, text: string)
    requires x in rows
    ensures x in KeepAll(lib, rows, [Metric(key, Ge, text)])
            <==> x in KeepAll(lib, rows, [Metric(key, Gt, text)]) || x in KeepAll(lib, rows, [Metric(key, Eq, text)])
    ensures x in KeepAll(lib, rows, [Metric(key, Le, text)])
            <==> x in KeepAll(lib, rows, [Metric(key, Lt, text)]) || x in KeepAll(lib, rows, [Metric(key, Eq, text)])
    ensures !(x in KeepAll(lib, rows, [Metric(key, Gt, text)]) && x in KeepAll(lib, rows, [Metric(key, Lt, text)]))
  {
    KeptByEach(lib, rows, key, text, x);
  }

  /** A missing snapshot, a NULL column, a NaN on either side and a text that is no number keep nothing but under !=. */
  lemma {:induction false} NothingCompares(lib: Library, rows: seq<Row>, x: Row, key: string, op: Op, text: string)
    requires x in rows && op != Ne
    requires || x.snap.None? || lib.float(text) in {None, Some(NaN)}
             || (key in {"ret", "shrp", "mdd", "tvr", "fitness", "delay"} &&
                 (key !in x.snap.value.columns || x.snap.value.columns[key] == NaN))
             || (key == "bcorr" && ("max_bcorr" !in x.snap.value.columns || x.snap.value.columns["max_bcorr"] == NaN))
    ensures x !in KeepAll(lib, rows, [Metric(key, op, text)])
  {
    KeptByOne(lib, rows, Metric(key, op, text), x);
    if x.snap.Some? {
      MetricColumns(x.snap.value);
    }
  }

  /** Infinities are above and below all numbers and equal to themselves; bcorr makes both positive. */
  lemma {:induction false} InfiniteValue(lib: Library, rows: seq<Row>, x: Row, key: string, text: string, t: Num)
    requires x in rows && x.snap.Some? && key in {"ret", "shrp", "mdd", "tvr", "fitness", "delay"} && key in x.snap.value.columns
    requires lib.float(text) == Some(t) && t != NaN
    ensures x.snap.value.columns[key] == PosInf ==>
              && (x in KeepAll(lib, rows, [Metric(key, Gt, text)]) <==> t != PosInf)
              && (x in KeepAll(lib, rows, [Metric(key, Eq, text)]) <==> t == PosInf) && x !in KeepAll(lib, rows, [Metric(key, Lt, text)])
    ensures x.snap.value.columns[key] == NegInf ==>
              && (x in KeepAll(lib, rows, [Metric(key, Lt, text)]) <==> t != NegInf)
              && (x in KeepAll(lib, rows, [Metric(key, Eq, text)]) <==> t == NegInf) && x !in KeepAll(lib, rows, [Metric(key, Gt, text)])
    ensures x.snap.value.columns[key].Fin? && t.PosInf? ==>
              x in KeepAll(lib, rows, [Metric(key, Lt, text)]) && x !in KeepAll(lib, rows, [Metric(key, Ge, text)])
    ensures x.snap.value.columns[key].Fin? && t.NegInf? ==>
              x in KeepAll(lib, rows, [Metric(key, Gt, text)]) && x !in KeepAll(lib, rows, [Metric(key, Le, text)])
  {
    hide KeepAll, MetricValue, SatisfiesAll;
    MetricColumns(x.snap.value);
    KeptByEach(lib, rows, key, text, x);
  }

  lemma KeptByEach(lib: Library, rows: seq<Row>, key: string, text: string, x: Row)
    requires x in rows
    ensures forall op :: x in KeepAll(lib, rows, [Metric(key, op, text)]) <==> Satisfies(lib, x, Metric(key, op, text))
  {
    forall op: Op
      ensures x in KeepAll(lib, rows, [Metric(key, op, text)]) <==> Satisfies(lib, x, Metric(key, op, text))
    {
      KeptByOne(lib, rows, Metric(key, op, text), x);
    }
  }

  /** Which column each key reads. */
  lemma MetricColumns(s: Snapshot)
    ensures forall key :: key in {"ret", "shrp", "mdd", "tvr", "fitness", "delay"} ==>
              MetricValue(Some(s), key) == if key in s.columns then Some(s.columns[key]) else None
    ensures MetricValue(Some(s), "bcorr") == if "max_bcorr" in s.columns then Some(Abs(s.columns["max_bcorr"])) else None
  {
    assert SNAPSHOT_METRICS["ret"].column == "ret" && SNAPSHOT_METRICS["bcorr"].column == "max_bcorr";
  }

  /** field= keeps the rows whose snapshot has that very field; tables= those with a table the glob accepts. */
  lemma {:induction false} TextConditions(lib: Library, rows: seq<Row>, x: Row, op: Op, text: string)
    requires x in rows
    ensures x in KeepAll(lib, rows, [Field(op, text)]) <==> x.snap.Some? && x.snap.value.fields.Some? && text in x.snap.value.fields.value
    ensures '[' !in text ==>
              (x in KeepAll(lib, rows, [Tables(op, text)])
               <==> x.snap.Some? && x.snap.value.tables.Some? && exists t :: t in x.snap.value.tables.value && Fnmatch(text, t))
    ensures '[' in text ==>
              (x in KeepAll(lib, rows, [Tables(op, text)])
               <==> x.snap.Some? && x.snap.value.tables.Some? && exists t :: t in x.snap.value.tables.value && lib.classes(text, t))
  {
    KeptByOne(lib, rows, Field(op, text), x);
    KeptByOne(lib, rows, Tables(op, text), x);
  }

  // ------------------------------------------------------------------ in SQL

  /** Truth values of section 8.12 of ISO/IEC 9075:1992; a row is selected when its condition is True. */
  datatype Truth = True | False | Unknown

  function Bool(b: bool): Truth { if b then True else False }

  /** PostgreSQL's order on doubles: NaN equals itself and is greater than everything else. */
  predicate PgLess(a: Num, b: Num) {
    a != b && (b == NaN || (a != NaN && PyLess(a, b)))
  }

  function PgCompare(a: Option<Num>, op: Op, b: Num): Truth {
    match a
    case None => Unknown
    case Some(v) =>
      match op
      case Gt => Bool(PgLess(b, v))
      case Lt => Bool(PgLess(v, b))
      case Ge => Bool(!PgLess(v, b))
      case Le => Bool(!PgLess(b, v))
      case Eq => Bool(v == b)
      case Ne => Bool(v != b)
  }

  /** On numbers SQL compares as reals; a NULL is neither; NaN is above everything and equal to itself. */
  lemma SqlCompares(v: real, t: real, n: Num, op: Op)
    ensures PgCompare(Some(Fin(v)), Gt, Fin(t)) == (if v > t then True else False)
    ensures PgCompare(Some(Fin(v)), Ge, Fin(t)) == (if v >= t then True else False)
    ensures PgCompare(Some(Fin(v)), Lt, Fin(t)) == (if v < t then True else False)
    ensures PgCompare(Some(Fin(v)), Le, Fin(t)) == (if v <= t then True else False)
    ensures PgCompare(Some(Fin(v)), Eq, Fin(t)) == (if v == t then True else False)
    ensures PgCompare(Some(Fin(v)), Ne, Fin(t)) == (if v != t then True else False)
    ensures PgCompare(None, op, n) == Unknown
    ensures PgCompare(Some(NaN), Ge, n) == True && PgCompare(Some(n), Le, NaN) == True
    ensures PgCompare(Some(NaN), Eq, n) == (if n == NaN then True else False)
    ensures PgCompare(Some(NaN), Gt, n) == (if n == NaN then False else True)
    ensures PgCompare(Some(n), Lt, NaN) == (if n == NaN then False else True)
  {
  }

  datatype Clause = FieldsContain(value: string) | SomeTableLike(pattern: string) | MetricTest(spec: MetricSpec, op: Op, threshold: Num)

  /** The LEFT JOIN's columns: all NULL without a snapshot row. */
  function Column(x: Row, spec: MetricSpec): Option<Num> {
    if x.snap.None? || spec.column !in x.snap.value.columns then None
    else Some(if spec.absolute then Abs(x.snap.value.columns[spec.column]) else x.snap.value.columns[spec.column])
  }

  function Holds(x: Row, c: Clause): Truth {
    match c
    case FieldsContain(value) =>
      if x.snap.None? || x.snap.value.fields.None? then Unknown else Bool(value in x.snap.value.fields.value)
    case SomeTableLike(pattern) =>
      Bool(x.snap.Some? && x.snap.value.tables.Some? && WellEscaped(pattern) &&
           exists t :: t in x.snap.value.tables.value && Like(t, pattern))
    case MetricTest(spec, op, threshold) => PgCompare(Column(x, spec), op, threshold)
  }

  /** AND is True exactly when all its terms are. */
  predicate Selected(x: Row, where: seq<Clause>) {
    forall i :: 0 <= i < |where| ==> Holds(x, where[i]) == True
  }

  datatype Pushed = Pushed(field: Option<string>, glob: Option<string>, metrics: seq<(string, Op, Num)>)

  /** The first field and the first tables condition (_pushdown_params). */
  function FirstField(fs: seq<Filter>): Option<string> {
    if fs == [] then None else if fs[0].Field? then Some(fs[0].value) else FirstField(fs[1..])
  }

  function FirstGlob(fs: seq<Filter>): Option<string> {
    if fs == [] then None else if fs[0].Tables? then Some(fs[0].glob) else FirstGlob(fs[1..])
  }

  /** What snapshot_where makes of the pushed conditions; empty texts and globs with a class are not pushed. */
  ghost predicate IsWhere(p: Pushed, where: seq<Clause>) {
    forall c <- where :: ComesFrom(p, c)
  }

  ghost predicate ComesFrom(p: Pushed, c: Clause) {
    match c
    case FieldsContain(value) => p.field == Some(value)
    case SomeTableLike(pattern) => p.glob.Some? && GlobToLike(p.glob.value) == Pattern(pattern)
    case MetricTest(spec, op, threshold) =>
      op != Ne && exists key :: key in SNAPSHOT_METRICS && SNAPSHOT_METRICS[key] == spec && (key, op, threshold) in p.metrics
  }

  method SnapshotWhere(p: Pushed) returns (where: seq<Clause>)
    ensures IsWhere(p, where)
    ensures forall c <- where :: c.MetricTest? ==> c.op != Ne && exists m <- p.metrics :: m.1 == c.op && m.2 == c.threshold
    ensures p.field.Some? && p.field.value != "" ==> FieldsContain(p.field.value) in where
    ensures p.glob.Some? && p.glob.value != "" && GlobToLike(p.glob.value).Pattern? ==> SomeTableLike(GlobToLike(p.glob.value).like) in where
    ensures forall m <- p.metrics :: m.0 in SNAPSHOT_METRICS && m.1 != Ne ==> MetricTest(SNAPSHOT_METRICS[m.0], m.1, m.2) in where
  {
    where := [];
    if p.field.Some? && p.field.value != "" {
      where := where + [FieldsContain(p.field.value)];
    }
    if p.glob.Some? && p.glob.value != "" {
      var pattern := GlobToLike(p.glob.value);
      if pattern.Pattern? {
        where := where + [SomeTableLike(pattern.like)];
      }
    }
    hide ComesFrom, GlobToLike;
    var i := 0;
    ghost var texts := where;
    while i < |p.metrics|
      invariant 0 <= i <= |p.metrics| && IsWhere(p, where) && forall c <- texts :: c in where
      invariant forall m <- p.metrics[..i] :: m.0 in SNAPSHOT_METRICS && m.1 != Ne ==> MetricTest(SNAPSHOT_METRICS[m.0], m.1, m.2) in where
    {
      var (key, op, threshold) := p.metrics[i];
      if key in SNAPSHOT_METRICS && op != Ne {
        where := where + [MetricTest(SNAPSHOT_METRICS[key], op, threshold)];
      }
      i := i + 1;
    }
  }

  /** _metric_pushdown: thresholds of the metric conditions other than !=; fails when one of them is not a number. */
  method MetricPushdown(lib: Library, fs: seq<Filter>) returns (r: Option<seq<(string, Op, Num)>>)
    ensures Parses(lib, fs) ==> r.Some?
    ensures r.None? <==> exists i :: 0 <= i < |fs| && fs[i].Metric? && fs[i].op != Ne && lib.float(fs[i].text).None?
    ensures r.Some? ==> forall m <- r.value :: m.1 != Ne && IsThreshold(lib, fs, m)
    ensures r.Some? ==> forall i :: 0 <= i < |fs| && fs[i].Metric? && fs[i].op != Ne ==> (fs[i].key, fs[i].op, lib.float(fs[i].text).GetOr(NaN)) in r.value
  {
    var out: seq<(string, Op, Num)> := [];
    var i := 0;
    while i < |fs|
      invariant 0 <= i <= |fs|
      invariant forall m <- out :: m.1 != Ne && IsThreshold(lib, fs, m)
      invariant forall j :: 0 <= j < i && Pushes(fs[j]) ==> lib.float(fs[j].text).Some? && (fs[j].key, fs[j].op, lib.float(fs[j].text).value) in out
    {
      if Pushes(fs[i]) {
        var v := lib.float(fs[i].text);
        if v.None? {
          return None;
        }
        assert IsThresholdAt(lib, fs, i, (fs[i].key, fs[i].op, v.value));
        out := out + [(fs[i].key, fs[i].op, v.value)];
      }
      i := i + 1;
    }
    return Some(out);
  }

  /** A metric condition that SQL can test. */
  predicate Pushes(f: Filter) {
    f.Metric? && f.op != Ne
  }

  predicate IsThresholdAt(lib: Library, fs: seq<Filter>, i: int, m: (string, Op, Num)) {
    0 <= i < |fs| && fs[i].Metric? && fs[i].key == m.0 && fs[i].op == m.1 && lib.float(fs[i].text) == Some(m.2)
  }

  ghost predicate IsThreshold(lib: Library, fs: seq<Filter>, m: (string, Op, Num)) {
    exists i :: IsThresholdAt(lib, fs, i, m)
  }

  /** What list_factors hands to find for these filters. */
  ghost predicate PushedFrom(lib: Library, fs: seq<Filter>, p: Pushed) {
    && p.field == FirstField(fs) && p.glob == FirstGlob(fs)
    && forall m <- p.metrics :: m.1 != Ne && IsThreshold(lib, fs, m)
  }

  // ------------------------------------------------------------------ pushdown never loses a row

  lemma {:induction false} FirstFieldIsFilter(fs: seq<Filter>) returns (i: nat)
    requires FirstField(fs).Some?
    ensures i < |fs| && fs[i].Field? && fs[i].value == FirstField(fs).value
  {
    if fs[0].Field? {
      i := 0;
    } else {
      i := FirstFieldIsFilter(fs[1..]);
      i := i + 1;
    }
  }

  lemma {:induction false} FirstGlobIsFilter(fs: seq<Filter>) returns (i: nat)
    requires FirstGlob(fs).Some?
    ensures i < |fs| && fs[i].Tables? && fs[i].glob == FirstGlob(fs).value
  {
    if fs[0].Tables? {
      i := 0;
    } else {
      i := FirstGlobIsFilter(fs[1..]);
      i := i + 1;
    }
  }

  lemma ClauseIsWider(lib: Library, x: Row, fs: seq<Filter>, p: Pushed, where: seq<Clause>, c: Clause)
    requires SatisfiesAll(lib, x, fs) && PushedFrom(lib, fs, p) && IsWhere(p, where) && c in where
    ensures Holds(x, c) == True
  {
    match c
    case FieldsContain(value) =>
      var i := FirstFieldIsFilter(fs);
      assert Satisfies(lib, x, fs[i]);
    case SomeTableLike(pattern) =>
      var i := FirstGlobIsFilter(fs);
      assert Satisfies(lib, x, fs[i]);
      var t :| t in x.snap.value.tables.value && GlobAccepts(lib, fs[i].glob, t);
      GlobToLikePreserves(fs[i].glob, t);
    case MetricTest(spec, op, threshold) =>
      var key :| key in SNAPSHOT_METRICS && SNAPSHOT_METRICS[key] == spec && (key, op, threshold) in p.metrics;
      var i :| IsThresholdAt(lib, fs, i, (key, op, threshold));
      assert Satisfies(lib, x, fs[i]);
  }

  /** Every row that passes the whole filter in memory is selected by the pushed conditions. */
  lemma PushdownIsWider(lib: Library, x: Row, fs: seq<Filter>, p: Pushed, where: seq<Clause>)
    requires SatisfiesAll(lib, x, fs) && PushedFrom(lib, fs, p) && IsWhere(p, where)
    ensures Selected(x, where)
  {
    forall i | 0 <= i < |where|
      ensures Holds(x, where[i]) == True
    {
      ClauseIsWider(lib, x, fs, p, where, where[i]);
    }
  }

  // ------------------------------------------------------------------ list_factors

  function NameOf(x: Row): string { x.name }

  function StatusKept(rows: seq<Row>, status: Option<string>): seq<Row> {
    if rows == [] || status.None? then rows
    else StatusKept(rows[..|rows| - 1], status) + if rows[|rows| - 1].status == status then [rows[|rows| - 1]] else []
  }

  /** rows[:n] */
  function Slice(rows: seq<Row>, n: Option<int>): seq<Row> {
    match n
    case None => rows
    case Some(k) => if k >= 0 then rows[..if k <= |rows| then k else |rows|] else rows[..if |rows| + k >= 0 then |rows| + k else 0]
  }

  /** From the rows SQL returned to the answer. `resort` is the final sort, by a metric or none. */
  function Answer(lib: Library, rows: seq<Row>, status: Option<string>, fs: Option<seq<Filter>>, resort: seq<Row> -> seq<Row>, n: Option<int>)
    : Option<seq<Row>>
  {
    var named := StatusKept(Sort(rows, NameOf), status);
    match fs
    case None => Some(Slice(resort(named), n))
    case Some(f) => if Parses(lib, f) then Some(Slice(resort(KeepAll(lib, named, f)), n)) else None
  }

  /** list_factors after find: the answer, or the ValueError of float(). */
  method ListFactors(lib: Library, rows: seq<Row>, status: Option<string>, fs: Option<seq<Filter>>, resort: seq<Row> -> seq<Row>, n: Option<int>)
    returns (r: Option<seq<Row>>)
    ensures r == Answer(lib, rows, status, fs, resort, n)
    ensures r.None? <==> fs.Some? && exists i :: 0 <= i < |fs.value| && fs.value[i].Metric? && lib.float(fs.value[i].text).None?
  {
    var named := Sort(rows, NameOf);
    if status.Some? {
      var kept: seq<Row> := [];
      var i := 0;
      while i < |named|
        invariant 0 <= i <= |named| && kept == StatusKept(named[..i], status)
      {
        assert named[..i + 1][..i] == named[..i];
        if named[i].status == status {
          kept := kept + [named[i]];
        }
        i := i + 1;
      }
      assert named[..|named|] == named;
      named := kept;
    }
    if fs.Some? {
      var kept := ApplyFilters(lib, named, fs.value);
      if kept.None? {
        return None;
      }
      named := kept.value;
    }
    return Some(Slice(resort(named), n));
  }

  /** -n k keeps the first k rows, or all of them when there are fewer; a negative k drops that many from the end. */
  lemma LimitIsPrefix(lib: Library, rows: seq<Row>, status: Option<string>, fs: Option<seq<Filter>>, resort: seq<Row> -> seq<Row>, k: int)
    ensures var all, some := Answer(lib, rows, status, fs, resort, None), Answer(lib, rows, status, fs, resort, Some(k));
            && (all.None? <==> some.None?)
            && (all.Some? ==> && some.value <= all.value
                              && (0 <= k < |all.value| ==> |some.value| == k)
                              && (k >= |all.value| ==> some == all)
                              && (-|all.value| < k < 0 ==> |some.value| == |all.value| + k)
                              && (k <= -|all.value| ==> some.value == []))
  {
    hide KeepAll, StatusKept, Sort, Parses;
    forall all: seq<Row>
      ensures all[..|all|] == all
    {
    }
  }

  /** What find may return for a table of rows: each selected row once, in whatever order SQL produced it. */
  ghost predicate Finds(table: seq<Row>, where: seq<Clause>, rows: seq<Row>) {
    && (forall i, j :: 0 <= i < j < |rows| ==> rows[i] != rows[j])
    && (forall x :: x in rows <==> x in table && Selected(x, where))
  }

  ghost predicate UniqueNames(table: seq<Row>) {
    forall x, y :: x in table && y in table && x.name == y.name ==> x == y
  }

  // Rows kept in the end, as a filter of a sequence sorted by name: such a sequence is determined by its elements.

  lemma {:induction false} KeptStrict(lib: Library, rows: seq<Row>, status: Option<string>, fs: seq<Filter>)
    requires StrictlySorted(rows, NameOf)
    ensures StrictlySorted(KeepAll(lib, StatusKept(rows, status), fs), NameOf)
    ensures forall x :: x in KeepAll(lib, StatusKept(rows, status), fs) <==> x in rows && (status.None? || x.status == status) && SatisfiesAll(lib, x, fs)
  {
    StatusStrict(rows, status);
    KeepStrict(lib, StatusKept(rows, status), fs);
  }

  lemma {:induction false} StatusStrict(rows: seq<Row>, status: Option<string>)
    requires StrictlySorted(rows, NameOf)
    ensures StrictlySorted(StatusKept(rows, status), NameOf)
    ensures forall x :: x in StatusKept(rows, status) <==> x in rows && (status.None? || x.status == status)
  {
    if rows != [] && status.Some? {
      var k := |rows| - 1;
      StatusStrict(rows[..k], status);
      forall x | x in rows[..k]
        ensures Less(NameOf(x), NameOf(rows[k]))
      {
      }
      assert rows == rows[..k] + [rows[k]];
    }
  }

  lemma {:induction false} KeepStrict(lib: Library, rows: seq<Row>, fs: seq<Filter>)
    requires StrictlySorted(rows, NameOf)
    ensures StrictlySorted(KeepAll(lib, rows, fs), NameOf)
    ensures forall x :: x in KeepAll(lib, rows, fs) <==> x in rows && SatisfiesAll(lib, x, fs)
  {
    if rows != [] {
      var k := |rows| - 1;
      KeepStrict(lib, rows[..k], fs);
      forall x | x in rows[..k]
        ensures Less(NameOf(x), NameOf(rows[k]))
      {
      }
      assert rows == rows[..k] + [rows[k]];
    }
  }

  lemma {:induction false} FoundSorts(table: seq<Row>, where: seq<Clause>, rows: seq<Row>)
    requires UniqueNames(table) && Finds(table, where, rows)
    ensures StrictlySorted(Sort(rows, NameOf), NameOf)
    ensures forall x :: x in Sort(rows, NameOf) <==> x in table && Selected(x, where)
  {
    forall i, j | 0 <= i < j < |rows|
      ensures NameOf(rows[i]) != NameOf(rows[j])
    {
      assert rows[i] in table && rows[j] in table;
    }
    SortStrict(rows, NameOf);
  }

  /** For every table with unique names, every filter list, status, final sort and limit: the answer computed from the rows
      that the pushed conditions select, in any order, is the answer computed from all rows, in any order - the same
      sequence, or the same failure of float(). */
  lemma PushdownNeverChangesTheAnswer(lib: Library, table: seq<Row>, status: Option<string>, fs: seq<Filter>, resort: seq<Row> -> seq<Row>, n: Option<int>,
                                      p: Pushed, where: seq<Clause>, narrowed: seq<Row>, all: seq<Row>)
    requires UniqueNames(table) && PushedFrom(lib, fs, p) && IsWhere(p, where)
    requires Finds(table, where, narrowed) && Finds(table, [], all)
    ensures Answer(lib, narrowed, status, Some(fs), resort, n) == Answer(lib, all, status, Some(fs), resort, n)
  {
    FoundSorts(table, where, narrowed);
    FoundSorts(table, [], all);
    var a, b := Sort(narrowed, NameOf), Sort(all, NameOf);
    KeptStrict(lib, a, status, fs);
    KeptStrict(lib, b, status, fs);
    forall x | x in table && SatisfiesAll(lib, x, fs)
      ensures Selected(x, where)
    {
      PushdownIsWider(lib, x, fs, p, where);
    }
    StrictlySortedUnique(KeepAll(lib, StatusKept(a, status), fs), KeepAll(lib, StatusKept(b, status), fs), NameOf);
  }

  /** Without filters too the answer does not depend on the order in which SQL returns rows. */
  lemma OrderOfRowsDoesNotMatter(lib: Library, table: seq<Row>, status: Option<string>, resort: seq<Row> -> seq<Row>, n: Option<int>, r: seq<Row>, s: seq<Row>)
    requires UniqueNames(table) && Finds(table, [], r) && Finds(table, [], s)
    ensures Answer(lib, r, status, None, resort, n) == Answer(lib, s, status, None, resort, n)
  {
    FoundSorts(table, [], r);
    FoundSorts(table, [], s);
    StrictlySortedUnique(Sort(r, NameOf), Sort(s, NameOf), NameOf);
  }

  /** The whole of list_factors with pushdown: when thresholds do not parse it fails before it asks SQL, and then the answer
      without pushdown is the same failure. */
  method ListWithPushdown(lib: Library, table: seq<Row>, status: Option<string>, fs: seq<Filter>, resort: seq<Row> -> seq<Row>, n: Option<int>,
                          find: seq<Clause> -> seq<Row>)
    returns (r: Option<seq<Row>>)
    requires UniqueNames(table) && forall where :: Finds(table, where, find(where))
    ensures r == Answer(lib, find([]), status, Some(fs), resort, n)
  {
    var metrics := MetricPushdown(lib, fs);
    if metrics.None? {
      return None;
    }
    var p := Pushed(FirstField(fs), FirstGlob(fs), metrics.value);
    var where := SnapshotWhere(p);
    PushdownNeverChangesTheAnswer(lib, table, status, fs, resort, n, p, where, find(where), find([]));
    r := ListFactors(lib, find(where), status, Some(fs), resort, n);
  }
}
