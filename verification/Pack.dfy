// Packing daily dump files into one matrix per version, in full and incrementally (ops/services/pack/pack.py:51-174).
module Pack {
  import opened Prelude

  /** A double; rounding plays no part here. */
  datatype Cell = NaN | Inf(positive: bool) | Fin(r: real)

  datatype Version = V1 | V2

  /** One dump file: <date><version>.npy and its vector. */
  datatype Dump = Dump(date: int, version: Version, data: seq<Cell>)

  const ATOL := 0.000001

  // ------------------------------------------------------------------ where a file lands

  /** {int(d): i for i, d in enumerate(dates)} */
  function DateToIdx(dates: seq<int>): map<int, nat> {
    if dates == [] then map[] else DateToIdx(dates[..|dates| - 1])[dates[|dates| - 1] := |dates| - 1]
  }

  /** Two dates never share a row, even if the universe lists a date twice. */
  lemma {:induction false} DateToIdxInjective(dates: seq<int>, d: int, e: int)
    requires d in DateToIdx(dates) && e in DateToIdx(dates) && DateToIdx(dates)[d] == DateToIdx(dates)[e]
    ensures d == e
  {
    DateToIdxPlace(dates, d);
    DateToIdxPlace(dates, e);
  }

  lemma {:induction false} DateToIdxPlace(dates: seq<int>, d: int)
    requires d in DateToIdx(dates)
    ensures DateToIdx(dates)[d] < |dates| && dates[DateToIdx(dates)[d]] == d
  {
    if dates[|dates| - 1] != d {
      DateToIdxPlace(dates[..|dates| - 1], d);
    }
  }

  function OffsetForDelay(delay: int): int {
    if delay == 0 then 0 else -1
  }

  /** The shape of a target and how dates become rows. */
  datatype Grid = Grid(dates: seq<int>, rows: nat, columns: nat, delay: int)

  function RowOf(g: Grid, date: int): Option<nat> {
    var idx := DateToIdx(g.dates);
    if date !in idx then None
    else
      var di := idx[date] + OffsetForDelay(g.delay);
      if 0 <= di < g.rows then Some(di) else None
  }

  lemma {:induction false} LastPlace(dates: seq<int>, k: nat)
    requires k < |dates| && forall j :: k < j < |dates| ==> dates[j] != dates[k]
    ensures dates[k] in DateToIdx(dates) && DateToIdx(dates)[dates[k]] == k
  {
    if k < |dates| - 1 {
      LastPlace(dates[..|dates| - 1], k);
    }
  }

  /** Without delay a date's dump goes to the date's own row, with a delay to the row before it: the first date then has no row, and
      neither has a date beyond the matrix or outside the universe. */
  lemma RowExactly(g: Grid, date: int, k: nat)
    requires k < |g.dates| && g.dates[k] == date && forall j :: k < j < |g.dates| ==> g.dates[j] != date
    ensures g.delay == 0 ==> RowOf(g, date) == if k < g.rows then Some(k) else None
    ensures g.delay != 0 ==> RowOf(g, date) == if 1 <= k <= g.rows then Some(k - 1) else None
  {
    LastPlace(g.dates, k);
  }

  lemma NoRow(g: Grid, date: int)
    requires date !in g.dates
    ensures RowOf(g, date) == None
  {
    if date in DateToIdx(g.dates) {
      DateToIdxPlace(g.dates, date);
    }
  }

  predicate Lands(g: Grid, f: Dump, v: Version, i: nat) {
    f.version == v && RowOf(g, f.date) == Some(i)
  }

  lemma RowTellsDate(g: Grid, d: int, e: int)
    requires RowOf(g, d).Some? && RowOf(g, d) == RowOf(g, e)
    ensures d == e
  {
    DateToIdxInjective(g.dates, d, e);
  }

  // ------------------------------------------------------------------ what a sequence of writes leaves

  /** Cell (i, j) of version v after the files are written in order over `before`. */
  function Written(g: Grid, files: seq<Dump>, v: Version, i: nat, j: nat, before: Cell): Cell {
    if files == [] then before
    else
      var f := files[|files| - 1];
      if Lands(g, f, v, i) && j < |f.data| then f.data[j] else Written(g, files[..|files| - 1], v, i, j, before)
  }

  predicate Fits(g: Grid, f: Dump) {
    RowOf(g, f.date).Some? ==> |f.data| <= g.columns
  }

  // ------------------------------------------------------------------ the loops

  /** ram[version][di, :h0] = arr */
  method WriteRow(m: array2<Cell>, i: nat, data: seq<Cell>)
    requires i < m.Length0 && |data| <= m.Length1
    modifies m
    ensures forall k, j :: 0 <= k < m.Length0 && 0 <= j < m.Length1 ==>
              m[k, j] == if k == i && j < |data| then data[j] else old(m[k, j])
  {
    var c := 0;
    while c < |data|
      invariant 0 <= c <= |data|
      invariant forall k, j :: 0 <= k < m.Length0 && 0 <= j < m.Length1 ==>
                  m[k, j] == if k == i && j < c then data[j] else old(m[k, j])
    {
      m[i, c] := data[c];
      c := c + 1;
    }
  }

  predicate Shaped(g: Grid, m: array2<Cell>) {
    m.Length0 == g.rows && m.Length1 == g.columns
  }

  /** The two matrices are what writing `files` over `b1` and `b2` leaves. */
  ghost predicate Holds(g: Grid, files: seq<Dump>, m1: array2<Cell>, m2: array2<Cell>, b1: (nat, nat) -> Cell, b2: (nat, nat) -> Cell)
    requires Shaped(g, m1) && Shaped(g, m2)
    reads m1, m2
  {
    forall i, j :: 0 <= i < g.rows && 0 <= j < g.columns ==>
      m1[i, j] == Written(g, files, V1, i, j, b1(i, j)) && m2[i, j] == Written(g, files, V2, i, j, b2(i, j))
  }

  /** One turn of either loop: the file's row, if it has one, is overwritten from the left; a file that is too wide stops it. */
  method PlaceFile(g: Grid, m1: array2<Cell>, m2: array2<Cell>, f: Dump, ghost done: seq<Dump>, ghost b1: (nat, nat) -> Cell, ghost b2: (nat, nat) -> Cell)
    returns (ok: bool)
    requires Shaped(g, m1) && Shaped(g, m2) && m1 != m2 && Holds(g, done, m1, m2, b1, b2)
    modifies m1, m2
    ensures ok == Fits(g, f)
    ensures ok ==> Holds(g, done + [f], m1, m2, b1, b2)
  {
    assert (done + [f])[..|done|] == done;
    var di := RowOf(g, f.date);
    if di.None? {
      return true;
    }
    if |f.data| > g.columns {
      return false;
    }
    if f.version == V1 {
      WriteRow(m1, di.value, f.data);
    } else {
      WriteRow(m2, di.value, f.data);
    }
    ok := true;
  }

  /** pack_one without its check: both matrices from scratch; fails exactly when some file with a row is too wide. */
  method PackOne(g: Grid, files: seq<Dump>) returns (ok: bool, m1: array2<Cell>, m2: array2<Cell>)
    ensures fresh(m1) && fresh(m2) && m1 != m2 && Shaped(g, m1) && Shaped(g, m2)
    ensures ok <==> forall f <- files :: Fits(g, f)
    ensures ok ==> Holds(g, files, m1, m2, (i, j) => NaN, (i, j) => NaN)
    ensures ok && UniqueKeys(files) ==>
              forall f, j :: f in files && RowOf(g, f.date).Some? && 0 <= j < |f.data| ==>
                var i := RowOf(g, f.date).value;
                (f.version == V1 ==> m1[i, j] == f.data[j]) && (f.version == V2 ==> m2[i, j] == f.data[j])
  {
    m1 := new Cell[g.rows, g.columns]((_, _) => NaN);
    m2 := new Cell[g.rows, g.columns]((_, _) => NaN);
    var n := 0;
    while n < |files|
      invariant 0 <= n <= |files| && Shaped(g, m1) && Shaped(g, m2)
      invariant Holds(g, files[..n], m1, m2, (i, j) => NaN, (i, j) => NaN)
      invariant forall f <- files[..n] :: Fits(g, f)
    {
      assert files[..n + 1] == files[..n] + [files[n]];
      ok := PlaceFile(g, m1, m2, files[n], files[..n], (i, j) => NaN, (i, j) => NaN);
      if !ok {
        return;
      }
      n := n + 1;
    }
    assert files[..|files|] == files;
    ok := true;
    if UniqueKeys(files) {
      forall f, j | f in files && RowOf(g, f.date).Some? && 0 <= j < |f.data|
        ensures Written(g, files, f.version, RowOf(g, f.date).value, j, NaN) == f.data[j]
      {
        RowFileIs(g, files, f.version, RowOf(g, f.date).value, f);
        WrittenIsLaid(g, files, f.version, RowOf(g, f.date).value, j, NaN);
      }
    }
  }

  /** The files whose dates were asked for; an empty list asks for all. */
  function Wanted(files: seq<Dump>, dates: set<int>): seq<Dump> {
    if files == [] then []
    else Wanted(files[..|files| - 1], dates)
         + if dates == {} || files[|files| - 1].date in dates then [files[|files| - 1]] else []
  }

  lemma {:induction false} WantedMembers(files: seq<Dump>, dates: set<int>, f: Dump)
    ensures f in Wanted(files, dates) <==> f in files && (dates == {} || f.date in dates)
  {
    if files != [] {
      WantedMembers(files[..|files| - 1], dates, f);
      assert files == files[..|files| - 1] + [files[|files| - 1]];
    }
  }

  /** pack_one_incremental on existing targets that hold b1 and b2. */
  method PackIncremental(g: Grid, files: seq<Dump>, dates: set<int>, m1: array2<Cell>, m2: array2<Cell>,
                         ghost b1: (nat, nat) -> Cell, ghost b2: (nat, nat) -> Cell)
    returns (ok: bool)
    requires Shaped(g, m1) && Shaped(g, m2) && m1 != m2 && Holds(g, [], m1, m2, b1, b2)
    modifies m1, m2
    ensures ok <==> forall f <- Wanted(files, dates) :: Fits(g, f)
    ensures ok ==> Holds(g, Wanted(files, dates), m1, m2, b1, b2)
  {
    var n := 0;
    while n < |files|
      invariant 0 <= n <= |files|
      invariant Holds(g, Wanted(files[..n], dates), m1, m2, b1, b2)
      invariant forall f <- Wanted(files[..n], dates) :: Fits(g, f)
    {
      assert files[..n + 1][..n] == files[..n] && files[..n + 1][n] == files[n];
      if dates == {} || files[n].date in dates {
        ok := PlaceFile(g, m1, m2, files[n], Wanted(files[..n], dates), b1, b2);
        if !ok {
          WantedMembers(files, dates, files[n]);
          return;
        }
      } else {
        assert Wanted(files[..n], dates) + [] == Wanted(files[..n], dates);
      }
      n := n + 1;
    }
    assert files[..|files|] == files;
    ok := true;
  }

  // ------------------------------------------------------------------ unique keys: one file per row

  ghost predicate UniqueKeys(files: seq<Dump>) {
    forall i, j :: 0 <= i < j < |files| && files[i].date == files[j].date ==> files[i].version != files[j].version
  }

  /** The file of row i, if any. */
  function RowFile(g: Grid, files: seq<Dump>, v: Version, i: nat): Option<Dump> {
    if files == [] then None
    else if Lands(g, files[|files| - 1], v, i) then Some(files[|files| - 1])
    else RowFile(g, files[..|files| - 1], v, i)
  }

  lemma {:induction false} RowFileIs(g: Grid, files: seq<Dump>, v: Version, i: nat, f: Dump)
    requires UniqueKeys(files)
    ensures RowFile(g, files, v, i) == Some(f) <==> f in files && Lands(g, f, v, i)
  {
    if files != [] {
      var last := files[|files| - 1];
      RowFileIs(g, files[..|files| - 1], v, i, f);
      assert files == files[..|files| - 1] + [last];
      if Lands(g, last, v, i) && Lands(g, f, v, i) {
        RowTellsDate(g, last.date, f.date);
      }
    }
  }

  /** What a row's file leaves in a cell of the row. */
  function Laid(f: Option<Dump>, j: nat, before: Cell): Cell {
    if f.Some? && j < |f.value.data| then f.value.data[j] else before
  }

  lemma {:induction false} WrittenIsLaid(g: Grid, files: seq<Dump>, v: Version, i: nat, j: nat, before: Cell)
    requires UniqueKeys(files)
    ensures Written(g, files, v, i, j, before) == Laid(RowFile(g, files, v, i), j, before)
  {
    if files != [] {
      var rest, last := files[..|files| - 1], files[|files| - 1];
      WrittenIsLaid(g, rest, v, i, j, before);
      if Lands(g, last, v, i) {
        NoOtherLands(g, files, v, i);
      }
    }
  }

  lemma NoOtherLands(g: Grid, files: seq<Dump>, v: Version, i: nat)
    requires UniqueKeys(files) && files != [] && Lands(g, files[|files| - 1], v, i)
    ensures RowFile(g, files[..|files| - 1], v, i) == None
  {
    var rest, last := files[..|files| - 1], files[|files| - 1];
    var r := RowFile(g, rest, v, i);
    if r.Some? {
      RowFileIs(g, rest, v, i, r.value);
      RowTellsDate(g, last.date, r.value.date);
      assert false;
    }
  }

  // ------------------------------------------------------------------ incremental equals full

  lemma {:induction false} WantedUnique(files: seq<Dump>, dates: set<int>)
    requires UniqueKeys(files)
    ensures UniqueKeys(Wanted(files, dates))
  {
    if files != [] {
      var rest, last := files[..|files| - 1], files[|files| - 1];
      WantedUnique(rest, dates);
      forall f | f in Wanted(rest, dates) && f.date == last.date
        ensures f.version != last.version
      {
        WantedMembers(rest, dates, f);
      }
    }
  }

  lemma {:induction false} WantedRow(g: Grid, files: seq<Dump>, dates: set<int>, v: Version, i: nat)
    requires UniqueKeys(files)
    ensures var f := RowFile(g, files, v, i);
            RowFile(g, Wanted(files, dates), v, i) == if f.Some? && (dates == {} || f.value.date in dates) then f else None
  {
    WantedUnique(files, dates);
    var f, w := RowFile(g, files, v, i), RowFile(g, Wanted(files, dates), v, i);
    if f.Some? {
      RowFileIs(g, files, v, i, f.value);
      RowFileIs(g, Wanted(files, dates), v, i, f.value);
      WantedMembers(files, dates, f.value);
    }
    if w.Some? {
      RowFileIs(g, Wanted(files, dates), v, i, w.value);
      WantedMembers(files, dates, w.value);
      RowFileIs(g, files, v, i, w.value);
    }
  }

  /** What the target holds after a full pack of `was` and an incremental one of `now`, and after a full pack of `now`. */
  function Updated(g: Grid, was: seq<Dump>, now: seq<Dump>, dates: set<int>, v: Version, i: nat, j: nat): Cell {
    Written(g, Wanted(now, dates), v, i, j, Written(g, was, v, i, j, NaN))
  }

  function Repacked(g: Grid, now: seq<Dump>, v: Version, i: nat, j: nat): Cell {
    Written(g, now, v, i, j, NaN)
  }

  /** Cell j of row i survives an update: where the row's new file is written, whatever it does not reach was NaN before;
      where it is not, the new file says what the old one said. */
  predicate CellKept(g: Grid, was: seq<Dump>, now: seq<Dump>, dates: set<int>, v: Version, i: nat, j: nat) {
    var a, b := RowFile(g, was, v, i), RowFile(g, now, v, i);
    if b.Some? && (dates == {} || b.value.date in dates) then j < |b.value.data| || Laid(a, j, NaN) == NaN
    else Laid(a, j, NaN) == Laid(b, j, NaN)
  }

  lemma CellExactly(g: Grid, was: seq<Dump>, now: seq<Dump>, dates: set<int>, v: Version, i: nat, j: nat)
    requires UniqueKeys(was) && UniqueKeys(now)
    ensures Updated(g, was, now, dates, v, i, j) == Repacked(g, now, v, i, j) <==> CellKept(g, was, now, dates, v, i, j)
  {
    var a := RowFile(g, was, v, i);
    WantedUnique(now, dates);
    WantedRow(g, now, dates, v, i);
    WrittenIsLaid(g, was, v, i, j, NaN);
    WrittenIsLaid(g, Wanted(now, dates), v, i, j, Laid(a, j, NaN));
    WrittenIsLaid(g, now, v, i, j, NaN);
  }

  ghost predicate RowKept(g: Grid, was: seq<Dump>, now: seq<Dump>, dates: set<int>, v: Version, i: nat) {
    forall j :: 0 <= j < g.columns ==> CellKept(g, was, now, dates, v, i, j)
  }

  /** An incremental update equals a full repack exactly when every row is kept. */
  lemma IncrementalIsFullExactly(g: Grid, was: seq<Dump>, now: seq<Dump>, dates: set<int>, v: Version, i: nat)
    requires UniqueKeys(was) && UniqueKeys(now)
    ensures (forall j :: 0 <= j < g.columns ==> Updated(g, was, now, dates, v, i, j) == Repacked(g, now, v, i, j))
            <==> RowKept(g, was, now, dates, v, i)
  {
    forall j | 0 <= j < g.columns
      ensures Updated(g, was, now, dates, v, i, j) == Repacked(g, now, v, i, j) <==> CellKept(g, was, now, dates, v, i, j)
    {
      CellExactly(g, was, now, dates, v, i, j);
    }
  }

  /** The dump directory changed on the given dates only; none of its files vanished or shrank. */
  ghost predicate Grew(was: seq<Dump>, now: seq<Dump>, dates: set<int>) {
    && (forall f <- now :: f.date !in dates ==> f in was)
    && (forall f <- was :: f.date !in dates ==> f in now)
    && (forall f <- was :: f.date in dates ==>
          exists h :: h in now && h.date == f.date && h.version == f.version && |h.data| >= |f.data|)
  }

  /** When dumps differ only on the given dates and none vanished or shrank, updating equals repacking, cell by cell. */
  lemma IncrementalIsFull(g: Grid, was: seq<Dump>, now: seq<Dump>, dates: set<int>, v: Version, i: nat, j: nat)
    requires UniqueKeys(was) && UniqueKeys(now) && dates != {} && Grew(was, now, dates) && j < g.columns
    ensures Updated(g, was, now, dates, v, i, j) == Repacked(g, now, v, i, j)
  {
    GrewKeepsRow(g, was, now, dates, v, i);
    IncrementalIsFullExactly(g, was, now, dates, v, i);
  }

  lemma GrewKeepsRow(g: Grid, was: seq<Dump>, now: seq<Dump>, dates: set<int>, v: Version, i: nat)
    requires UniqueKeys(was) && UniqueKeys(now) && dates != {} && Grew(was, now, dates)
    ensures RowKept(g, was, now, dates, v, i)
  {
    var a, b := RowFile(g, was, v, i), RowFile(g, now, v, i);
    if a.Some? {
      RowFileIs(g, was, v, i, a.value);
      if a.value.date in dates {
        var h :| h in now && h.date == a.value.date && h.version == a.value.version && |h.data| >= |a.value.data|;
        RowFileIs(g, now, v, i, h);
      } else {
        RowFileIs(g, now, v, i, a.value);
      }
    }
    if b.Some? {
      RowFileIs(g, now, v, i, b.value);
      if b.value.date !in dates {
        RowFileIs(g, was, v, i, b.value);
      }
    }
  }

  // ------------------------------------------------------------------ verify_sample

  /** abs(where(both NaN, 0, src - row)) */
  function Diff(a: Cell, b: Cell): Cell {
    match (a, b)
    case (NaN, NaN) => Fin(0.0)
    case (NaN, _) => NaN
    case (_, NaN) => NaN
    case (Fin(x), Fin(y)) => Fin(if x < y then y - x else x - y)
    case (Inf(p), Inf(q)) => if p == q then NaN else Inf(true)
    case _ => Inf(true)
  }

  predicate Close(a: Cell, b: Cell) {
    var d := Diff(a, b);
    d.Fin? && d.r < ATOL
  }

  /** Two numbers are close when they are less than a millionth apart; a missing value matches only a missing one, and an infinity
      matches nothing, not even itself. */
  lemma CloseMeans(x: real, y: real, a: Cell, positive: bool)
    ensures Close(Fin(x), Fin(y)) <==> -0.000001 < x - y < 0.000001
    ensures Close(NaN, NaN) && (Close(NaN, a) <==> a == NaN) && (Close(a, NaN) <==> a == NaN)
    ensures !Close(Inf(positive), a) && !Close(a, Inf(positive))
  {
  }

  /** Compares each picked file with its row; picks are files that have one. */
  method VerifySample(g: Grid, picks: seq<Dump>, m1: array2<Cell>, m2: array2<Cell>) returns (ok: bool)
    requires Shaped(g, m1) && Shaped(g, m2)
    requires forall f <- picks :: RowOf(g, f.date).Some? && |f.data| <= g.columns
    ensures ok <==> forall n, j :: 0 <= n < |picks| && 0 <= j < |picks[n].data| ==>
                      var i := RowOf(g, picks[n].date).value;
                      Close(picks[n].data[j], if picks[n].version == V1 then m1[i, j] else m2[i, j])
  {
    var n := 0;
    while n < |picks|
      invariant 0 <= n <= |picks|
      invariant forall k, j :: 0 <= k < n && 0 <= j < |picks[k].data| ==>
                  var i := RowOf(g, picks[k].date).value;
                  Close(picks[k].data[j], if picks[k].version == V1 then m1[i, j] else m2[i, j])
    {
      var f := picks[n];
      assert f in picks;
      var i := RowOf(g, f.date).value;
      var j := 0;
      while j < |f.data|
        invariant 0 <= j <= |f.data|
        invariant forall k :: 0 <= k < j ==> Close(f.data[k], if f.version == V1 then m1[i, k] else m2[i, k])
      {
        if !Close(f.data[j], if f.version == V1 then m1[i, j] else m2[i, j]) {
          return false;
        }
        j := j + 1;
      }
      n := n + 1;
    }
    ok := true;
  }

  predicate HasInfinity(f: Dump) {
    exists j :: 0 <= j < |f.data| && f.data[j].Inf?
  }

  /** After a full pack of dumps with unique keys, the check accepts a pick exactly when it holds no infinity - so with
      finite or missing values it accepts every sample. */
  lemma SampleAcceptedExactly(g: Grid, files: seq<Dump>, f: Dump)
    requires UniqueKeys(files) && f in files && RowOf(g, f.date).Some?
    ensures (forall j :: 0 <= j < |f.data| ==> Close(f.data[j], Repacked(g, files, f.version, RowOf(g, f.date).value, j)))
            <==> !HasInfinity(f)
  {
    var i := RowOf(g, f.date).value;
    RowFileIs(g, files, f.version, i, f);
    forall j | 0 <= j < |f.data|
      ensures Repacked(g, files, f.version, i, j) == f.data[j] && (Close(f.data[j], f.data[j]) <==> !f.data[j].Inf?)
    {
      WrittenIsLaid(g, files, f.version, i, j, NaN);
    }
  }

  /** A sample of the dumps that have a row and fit it. */
  ghost predicate Sample(g: Grid, files: seq<Dump>, picks: seq<Dump>) {
    forall f <- picks :: f in files && RowOf(g, f.date).Some?
  }

  /** pack_one: pack, then check a sample; a file that is too wide raises, a refused sample is an error. */
  method PackAndVerify(g: Grid, files: seq<Dump>, picks: seq<Dump>) returns (packed: bool, accepted: bool)
    requires UniqueKeys(files) && Sample(g, files, picks)
    ensures packed <==> forall f <- files :: Fits(g, f)
    ensures accepted <==> packed && forall f <- picks :: !HasInfinity(f)
  {
    var m1, m2;
    packed, m1, m2 := PackOne(g, files);
    if !packed {
      return false, false;
    }
    accepted := VerifySample(g, picks, m1, m2);
    forall n | 0 <= n < |picks|
      ensures (forall j :: 0 <= j < |picks[n].data| ==>
                 var i := RowOf(g, picks[n].date).value;
                 Close(picks[n].data[j], if picks[n].version == V1 then m1[i, j] else m2[i, j]))
              <==> !HasInfinity(picks[n])
    {
      assert picks[n] in picks;
      SampleAcceptedExactly(g, files, picks[n]);
    }
  }

  /** In a full pack, cell j of the row of a date holds what the date's dump of that version has there, and otherwise nothing. */
  lemma PackedCell(g: Grid, files: seq<Dump>, f: Dump, k: nat, j: nat)
    requires UniqueKeys(files) && f in files && k < |g.dates| && g.dates[k] == f.date && forall i :: k < i < |g.dates| ==> g.dates[i] != f.date
    ensures g.delay == 0 && k < g.rows ==> Repacked(g, files, f.version, k, j) == if j < |f.data| then f.data[j] else NaN
    ensures g.delay != 0 && 1 <= k <= g.rows ==> Repacked(g, files, f.version, k - 1, j) == if j < |f.data| then f.data[j] else NaN
  {
    RowExactly(g, f.date, k);
    if g.delay == 0 && k < g.rows {
      RowFileIs(g, files, f.version, k, f);
      WrittenIsLaid(g, files, f.version, k, j, NaN);
    } else if g.delay != 0 && 1 <= k <= g.rows {
      RowFileIs(g, files, f.version, k - 1, f);
      WrittenIsLaid(g, files, f.version, k - 1, j, NaN);
    }
  }

  /** A row to which no dump of the version goes holds nothing. */
  lemma EmptyRow(g: Grid, files: seq<Dump>, v: Version, i: nat, j: nat)
    requires UniqueKeys(files) && forall f <- files :: f.version == v ==> RowOf(g, f.date) != Some(i)
    ensures Repacked(g, files, v, i, j) == NaN
  {
    WrittenIsLaid(g, files, v, i, j, NaN);
    var r := RowFile(g, files, v, i);
    if r.Some? {
      RowFileIs(g, files, v, i, r.value);
    }
  }
}
