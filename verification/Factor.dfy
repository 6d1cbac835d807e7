// The stored shape of one factor: its status row, its event log and its files
// (ops/core/state.py, ops/services/check/stages.py, ops/core/paths.py), and the
// fold that replays the log.
module Factor {
  import opened Prelude

  type Name = string
  type Pid = nat
  type Time = nat
  type Code = int

  // ------------------------------------------------------------------ stages

  datatype StageName = Validate | Checkbias | Checkpoint | LongBacktest | Compliance | Correlation

  datatype Stage = Stage(name: StageName, prepares: bool, retryable: bool, keepArtifactsOnFail: bool)

  const PIPELINE: seq<Stage> := [
    Stage(Validate, true, true, false),
    Stage(Checkbias, true, false, false),
    Stage(Checkpoint, true, false, false),
    Stage(LongBacktest, true, true, false),
    Stage(Compliance, false, false, true),
    Stage(Correlation, false, false, true)
  ]

  // The two derived stage sets, evaluated; StageViews proves they are the columns of PIPELINE.
  predicate Retryable(s: StageName) { s == Validate || s == LongBacktest }
  predicate KeepsArtifacts(s: StageName) { s == Compliance || s == Correlation }

  lemma StageViews()
    ensures forall st <- PIPELINE :: Retryable(st.name) == st.retryable && KeepsArtifacts(st.name) == st.keepArtifactsOnFail
    ensures forall i, j :: 0 <= i < j < |PIPELINE| ==> PIPELINE[i].name != PIPELINE[j].name
  {
  }

  // ------------------------------------------------------------------ status row and events

  datatype Status = Submitted | Checking | Active | Rejected

  datatype Record = Record(status: Status, version: nat, submittedAt: Time, enteredAt: Option<Time>)

  datatype Op = SubmitOp | OverwriteOp | CheckOp | ApproveOp | RestageOp | CancelOp | RmOp | EnteredOp

  /** One row of factor_history; passed and failedStage are used by CheckOp only. */
  datatype Event = Event(name: Name, op: Op, at: Time, passed: Option<bool>, failedStage: Option<StageName>)

  function Plain(n: Name, op: Op, at: Time): Event {
    Event(n, op, at, None, None)
  }

  // ------------------------------------------------------------------ files

  /** A directory: missing, incomplete (a copy or removal is under way or failed), or whole. */
  datatype Dir = NoDir | Torn | Whole(code: Code)

  datatype PoolKind = Automated | Manual

  /** The files of one name (FactorPaths). */
  datatype Disk = Disk(staging: Dir, src: Dir, pnl: bool, dump: bool, feature: bool, poolAutomated: bool, poolManual: bool)

  const NO_FILES := Disk(NoDir, NoDir, false, false, false, false, false)

  predicate Pooled(d: Disk) {
    d.poolAutomated || d.poolManual
  }

  /** Everything the library keeps about one name: its status row, its snapshot's time, its files. */
  datatype Cell = Cell(rec: Option<Record>, snap: Option<Time>, disk: Disk)

  const EMPTY_CELL := Cell(None, None, NO_FILES)

  // ------------------------------------------------------------------ replay

  /** What the event log alone says about a name. */
  datatype Life = Absent | Present(status: Status, version: nat, entered: bool)

  function Replay1(l: Life, e: Event): Life {
    if e.op == SubmitOp then Present(Submitted, 1, false)
    else if l.Absent? then Absent
    else match e.op
         case OverwriteOp => l.(status := Submitted, version := l.version + 1)
         case CheckOp =>
           if e.passed == Some(true) then l
           else if e.passed == None then l.(status := Submitted)
           else if e.failedStage.Some? && Retryable(e.failedStage.value) then l.(status := Submitted)
           else l.(status := Rejected)
         case EnteredOp => l.(status := Active, entered := true)
         case RestageOp => l.(status := Submitted)
         case CancelOp => Absent
         case RmOp => Absent
         case _ => l
  }

  function Replay(h: seq<Event>): Life {
    if h == [] then Absent else Replay1(Replay(h[..|h| - 1]), h[|h| - 1])
  }

  /** The rows of one name, in log order. */
  function Own(h: seq<Event>, n: Name): seq<Event> {
    if h == [] then []
    else if h[|h| - 1].name == n then Own(h[..|h| - 1], n) + [h[|h| - 1]]
    else Own(h[..|h| - 1], n)
  }

  /** Does an `entered` row come after the last `submit` row? */
  predicate EnteredSinceSubmit(h: seq<Event>) {
    h != [] &&
    var e := h[|h| - 1];
    e.op != SubmitOp && (e.op == EnteredOp || EnteredSinceSubmit(h[..|h| - 1]))
  }

  /** How many `overwrite` rows come after the last `submit` row. */
  function OverwritesSinceSubmit(h: seq<Event>): nat {
    if h == [] || h[|h| - 1].op == SubmitOp then 0
    else OverwritesSinceSubmit(h[..|h| - 1]) + if h[|h| - 1].op == OverwriteOp then 1 else 0
  }

  /** The fold says what the log says: entered and version have their declarative meaning. */
  lemma {:induction false} ReplayMeaning(h: seq<Event>)
    ensures var l := Replay(h);
            l.Present? ==> l.entered == EnteredSinceSubmit(h) && l.version == 1 + OverwritesSinceSubmit(h)
    ensures Replay(h).Present? ==> Replay(h).status != Checking
  {
    if h != [] {
      ReplayMeaning(h[..|h| - 1]);
    }
  }

  lemma {:induction false} OwnAppend(h: seq<Event>, es: seq<Event>, n: Name)
    requires forall e <- es :: e.name == n
    ensures Own(h + es, n) == Own(h, n) + es
  {
    if es == [] {
      assert h + es == h;
    } else {
      var k := |es| - 1;
      assert (h + es)[..|h| + k] == h + es[..k];
      assert forall e <- es[..k] :: e in es;
      OwnAppend(h, es[..k], n);
      assert es == es[..k] + [es[k]];
    }
  }

  lemma {:induction false} OwnAppendOther(h: seq<Event>, es: seq<Event>, n: Name)
    requires forall e <- es :: e.name != n
    ensures Own(h + es, n) == Own(h, n)
  {
    if es == [] {
      assert h + es == h;
    } else {
      var k := |es| - 1;
      assert (h + es)[..|h| + k] == h + es[..k];
      assert forall e <- es[..k] :: e in es;
      OwnAppendOther(h, es[..k], n);
    }
  }

  // ------------------------------------------------------------------ derived reads

  predicate IsFailure(e: Event) {
    e.op == CheckOp && e.passed == Some(false)
  }

  /** Most recent failed check (store.last_fail). */
  function LastFail(own: seq<Event>): Option<Event> {
    if own == [] then None
    else if IsFailure(own[|own| - 1]) then Some(own[|own| - 1])
    else LastFail(own[..|own| - 1])
  }

  /** Time of the most recent check row (store.latest_check_ats). */
  function LastCheckAt(own: seq<Event>): Option<Time> {
    if own == [] then None
    else if own[|own| - 1].op == CheckOp then Some(own[|own| - 1].at)
    else LastCheckAt(own[..|own| - 1])
  }

  /** Row order agrees with time order up to a bound, so "ORDER BY at, id" is log order. */
  ghost predicate Chronological(own: seq<Event>, upTo: Time) {
    (forall i, j :: 0 <= i < j < |own| ==> own[i].at <= own[j].at) &&
    (own != [] ==> own[|own| - 1].at <= upTo)
  }

  /** Row k is the one that "WHERE passed = FALSE ORDER BY at DESC, id DESC LIMIT 1" returns. */
  ghost predicate LatestFailure(own: seq<Event>, k: nat) {
    k < |own| && IsFailure(own[k]) &&
    forall j :: 0 <= j < |own| && IsFailure(own[j]) ==> own[j].at < own[k].at || (own[j].at == own[k].at && j <= k)
  }

  /** On a chronological log, reading backwards finds exactly the row the query orders first. */
  lemma {:induction false} LastFailIsLatest(own: seq<Event>, upTo: Time) returns (k: nat)
    requires Chronological(own, upTo)
    ensures LastFail(own).None? ==> forall e <- own :: !IsFailure(e)
    ensures LastFail(own).Some? ==> LatestFailure(own, k) && own[k] == LastFail(own).value
  {
    k := 0;
    if own != [] {
      if IsFailure(own[|own| - 1]) {
        k := |own| - 1;
        assert LatestFailure(own, k);
      } else {
        k := LastFailIsLatest(own[..|own| - 1], upTo);
      }
    }
  }

  // ------------------------------------------------------------------ grammar of a log

  /** May row e follow the log h of one name? */
  predicate Follows(life: Life, lastRow: Option<Event>, lastFail: Option<Event>, e: Event) {
    match e.op
    case SubmitOp => life.Absent?
    case ApproveOp => life.Present? && life.status == Rejected && lastFail.Some? && lastFail.value.failedStage == Some(Correlation)
    case RestageOp => life.Present? && (life.status == Active || life.status == Rejected)
    case EnteredOp =>
      life.Present? && lastRow.Some? &&
      (lastRow.value.op == ApproveOp || (lastRow.value.op == CheckOp && lastRow.value.passed == Some(true)))
    case CancelOp => life.Present? && !life.entered
    case _ => life.Present?
  }

  function LastRow(h: seq<Event>): Option<Event> {
    if h == [] then None else Some(h[|h| - 1])
  }

  /** Every row of the log may follow the rows before it. */
  ghost predicate Grammatical(h: seq<Event>) {
    forall i :: 0 <= i < |h| ==> Follows(Replay(h[..i]), LastRow(h[..i]), LastFail(h[..i]), h[i])
  }

  // ------------------------------------------------------------------ digest of a log

  /** All that the commands and the invariants ever use of a factor's rows. */
  datatype Digest = Digest(
    life: Life,
    lastRow: Option<Event>,
    lastCheck: Option<Time>,
    lastFail: Option<Event>,
    lastAt: Time,
    inOrder: bool,
    grammatical: bool)

  const NO_ROWS := Digest(Absent, None, None, None, 0, true, true)

  function Note(d: Digest, e: Event): Digest {
    Digest(Replay1(d.life, e),
           Some(e),
           if e.op == CheckOp then Some(e.at) else d.lastCheck,
           if IsFailure(e) then Some(e) else d.lastFail,
           e.at,
           d.inOrder && d.lastAt <= e.at,
           d.grammatical && Follows(d.life, d.lastRow, d.lastFail, e))
  }

  /** The digest after the rows of one transaction: none, one, or a command's row and its `entered` row. */
  function NoteAll(d: Digest, es: seq<Event>): Digest
    requires |es| <= 2
  {
    if |es| == 0 then d
    else if |es| == 1 then Note(d, es[0])
    else Note(Note(d, es[0]), es[1])
  }

  function DigestOf(own: seq<Event>): Digest {
    if own == [] then NO_ROWS else Note(DigestOf(own[..|own| - 1]), own[|own| - 1])
  }

  lemma {:induction false} DigestAppend(own: seq<Event>, es: seq<Event>)
    requires |es| <= 2
    ensures DigestOf(own + es) == NoteAll(DigestOf(own), es)
  {
    if |es| == 0 {
      assert own + es == own;
    } else if |es| == 1 {
      assert (own + es)[..|own|] == own;
    } else {
      var one := own + [es[0]];
      assert one[..|own|] == own;
      assert own + es == one + [es[1]] && (one + [es[1]])[..|one|] == one;
    }
  }

  /** The digest is the log's replay, last rows, time order and grammar. */
  lemma {:induction false} DigestMeaning(own: seq<Event>)
    ensures var d := DigestOf(own);
            && d.life == Replay(own) && d.lastRow == LastRow(own)
            && d.lastCheck == LastCheckAt(own) && d.lastFail == LastFail(own)
    ensures DigestOf(own).inOrder ==> Chronological(own, DigestOf(own).lastAt)
    ensures DigestOf(own).grammatical ==> Grammatical(own)
  {
    if own != [] {
      var k := |own| - 1;
      DigestMeaning(own[..k]);
      if DigestOf(own).grammatical {
        forall i | 0 <= i < |own|
          ensures Follows(Replay(own[..i]), LastRow(own[..i]), LastFail(own[..i]), own[i])
        {
          if i < k {
            assert own[..i] == own[..k][..i];
          }
        }
      }
    }
  }
}
