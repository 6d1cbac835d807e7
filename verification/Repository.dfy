// The library as an object: tables and directories that the repository's methods update in place
// (ops/infra/repository.py, ops/infra/store/pg_store.py).
module Repository {
  import opened Prelude
  import opened Factor
  import opened Commands

  // ------------------------------------------------------------------ whole file operations

  function ArchivedCell(c: Cell, kind: Option<PoolKind>): Cell {
    c.(disk := Pool(c.disk.(src := c.disk.staging, staging := NoDir, dump := true, pnl := true), kind))
  }

  /** on_reject: `kept` says whether the stage's pnl and dump were there to be kept. */
  function RejectedDisk(d: Disk, stage: StageName, kept: bool): Disk {
    var moved := d.(src := d.staging, staging := NoDir);
    if !KeepsArtifacts(stage) then moved.(dump := false, feature := false)
    else if kept then moved.(pnl := true, dump := true)
    else moved
  }

  function PurgedScopes(d: Disk, serving: bool, check: bool): Disk {
    var s := if serving then d.(dump := false, feature := false) else d;
    if check then Purged(s) else s
  }

  datatype FileError = FileNotFound | FileExists

  // ------------------------------------------------------------------ the object

  class FactorRepository {
    var records: map<Name, Record>
    var history: seq<Event>
    var snapshots: map<Name, Time>
    var staging: map<Name, Dir>
    var src: map<Name, Dir>
    var pnl: set<Name>
    var dump: set<Name>
    var feature: set<Name>
    var poolAutomated: set<Name>
    var poolManual: set<Name>

    constructor ()
      ensures forall n :: CellAt(n) == EMPTY_CELL
      ensures history == []
    {
      records, history, snapshots := map[], [], map[];
      staging, src := map[], map[];
      pnl, dump, feature, poolAutomated, poolManual := {}, {}, {}, {}, {};
    }

    /** Everything the tables and directories hold about one name. */
    function CellAt(n: Name): Cell
      reads this
    {
      Cell(if n in records then Some(records[n]) else None,
           if n in snapshots then Some(snapshots[n]) else None,
           Disk(DirAt(staging, n), DirAt(src, n), n in pnl, n in dump, n in feature, n in poolAutomated, n in poolManual))
    }

    static function DirAt(dirs: map<Name, Dir>, n: Name): Dir {
      if n in dirs then dirs[n] else NoDir
    }

    // ---------------------------------------------------------------- tables

    method Register(n: Name, now: Time)
      modifies `records, `history
      ensures var w := Registered(old(CellAt(n)), n, now); CellAt(n) == w.cell && history == old(history) + w.events
      ensures forall k :: k != n ==> CellAt(k) == old(CellAt(k))
      ensures records == old(records)[n := Record(Submitted, 1, now, None)] && history == old(history) + [Event(n, SubmitOp, now, None, None)]
    {
      records := records[n := Record(Submitted, 1, now, None)];
      history := history + [Plain(n, SubmitOp, now)];
    }

    /** Reads the row, compares, sets the given fields, writes it back and appends the rows of the log, or changes nothing. */
    method Transition(n: Name, to: Status, expected: Option<Status>, op: Option<Op>, up: Updates, now: Time)
      returns (err: Option<StoreError>)
      modifies `records, `history
      ensures var r := Transitioned(old(CellAt(n)), n, to, expected, op, up, now);
              match r
              case Ok(w) => err == None && CellAt(n) == w.cell && history == old(history) + w.events
              case Err(e) => err == Some(e) && records == old(records) && history == old(history)
      ensures forall k :: k != n ==> CellAt(k) == old(CellAt(k))
      ensures err == if n !in old(records) then Some(FactorNotFound)
                     else if expected.Some? && old(records)[n].status != expected.value then Some(StateConflict) else None
      ensures err.None? ==>
                && n in records && records[n].status == to
                && (forall v :: up.version == Some(v) ==> records[n].version == v) && (up.version.None? ==> records[n].version == old(records)[n].version)
                && (forall t :: up.submittedAt == Some(t) ==> records[n].submittedAt == t)
                && (up.submittedAt.None? ==> records[n].submittedAt == old(records)[n].submittedAt)
                && records[n].enteredAt == (if up.enteredAt.Some? then up.enteredAt else old(records)[n].enteredAt)
                && history == old(history) + (if op.Some? then [Event(n, op.value, now, None, None)] else [])
                              + (if to == Active then [Event(n, EnteredOp, now, None, None)] else [])
    {
      if n !in records {
        return Some(FactorNotFound);
      }
      var rec := records[n];
      if expected.Some? && rec.status != expected.value {
        return Some(StateConflict);
      }
      rec := rec.(status := to);
      if up.version.Some? {
        rec := rec.(version := up.version.value);
      }
      if up.submittedAt.Some? {
        rec := rec.(submittedAt := up.submittedAt.value);
      }
      if up.enteredAt.Some? {
        rec := rec.(enteredAt := up.enteredAt);
      }
      assert rec == Record(to, up.version.GetOr(old(records)[n].version), up.submittedAt.GetOr(old(records)[n].submittedAt),
                           if up.enteredAt.Some? then up.enteredAt else old(records)[n].enteredAt);
      records := records[n := rec];
      LogTransition(n, to, op, now);
      err := None;
    }

    /** The command's row, and `entered` for a factor that becomes ACTIVE. */
    method LogTransition(n: Name, to: Status, op: Option<Op>, now: Time)
      modifies `history
      ensures history == old(history) + (if op.Some? then [Event(n, op.value, now, None, None)] else [])
                                      + (if to == Active then [Event(n, EnteredOp, now, None, None)] else [])
    {
      if op.Some? {
        history := history + [Plain(n, op.value, now)];
      }
      if to == Active {
        history := history + [Plain(n, EnteredOp, now)];
      }
    }

    method AppendCheck(n: Name, passed: Option<bool>, stage: Option<StageName>, at: Time) returns (err: Option<StoreError>)
      modifies `history
      ensures match CheckAppended(CellAt(n), n, passed, stage, at)
              case Ok(w) => err == None && history == old(history) + w.events
              case Err(e) => err == Some(e) && history == old(history)
      ensures forall k :: CellAt(k) == old(CellAt(k))
      ensures if n in records then err == None && history == old(history) + [Event(n, CheckOp, at, passed, stage)]
              else err == Some(FactorNotFound) && history == old(history)
    {
      if n !in records {
        return Some(FactorNotFound);
      }
      history := history + [Event(n, CheckOp, at, passed, stage)];
      err := None;
    }

    method Delete(n: Name, op: Op, now: Time) returns (existed: bool)
      modifies `records, `snapshots, `history
      ensures var w := Deleted(old(CellAt(n)), n, op, now); CellAt(n) == w.cell && history == old(history) + w.events
      ensures existed == (n in old(records))
      ensures records == old(records) - {n} && snapshots == old(snapshots) - {n}
      ensures history == old(history) + if existed then [Event(n, op, now, None, None)] else []
      ensures forall k :: k != n ==> CellAt(k) == old(CellAt(k))
    {
      existed := n in records;
      records, snapshots := records - {n}, snapshots - {n};
      if existed {
        history := history + [Plain(n, op, now)];
      }
    }

    /** Latest failed check of a factor: the log read backwards. */
    method ReadLastFail(n: Name) returns (f: Option<Event>)
      ensures f == LastFail(Own(history, n))
    {
      var i := |history|;
      assert history[..i] == history;
      while i > 0
        invariant 0 <= i <= |history|
        invariant LastFail(Own(history[..i], n)) == LastFail(Own(history, n))
      {
        i := i - 1;
        assert history[..i + 1][..i] == history[..i];
        if history[i].name == n && IsFailure(history[i]) {
          return Some(history[i]);
        }
      }
      f := None;
    }

    method AttachSnapshot(n: Name, at: Time)
      modifies `snapshots
      ensures CellAt(n) == old(CellAt(n)).(snap := Some(at))
      ensures forall k :: k != n ==> CellAt(k) == old(CellAt(k))
    {
      if n in snapshots {
        snapshots := snapshots - {n};
      }
      snapshots := snapshots[n := at];
    }

    method DiscardSnapshot(n: Name)
      modifies `snapshots
      ensures CellAt(n) == old(CellAt(n)).(snap := None)
      ensures forall k :: k != n ==> CellAt(k) == old(CellAt(k))
    {
      snapshots := snapshots - {n};
    }

    // ---------------------------------------------------------------- files

    /** Staging to alpha_src, dump and pnl in place, and a copy of the pnl in the pool of its kind. */
    method Archive(n: Name, kind: Option<PoolKind>)
      requires n in staging
      modifies `src, `staging, `dump, `pnl, `poolAutomated, `poolManual
      ensures CellAt(n) == ArchivedCell(old(CellAt(n)), kind)
      ensures forall k :: k != n ==> CellAt(k) == old(CellAt(k))
      ensures n in src && src[n] == old(staging)[n] && n !in staging && n in dump && n in pnl
      ensures n in poolAutomated <==> n in old(poolAutomated) || kind == Some(Automated)
      ensures n in poolManual <==> n in old(poolManual) || kind == Some(Manual)
    {
      src := src - {n};
      src, staging := src[n := staging[n]], staging - {n};
      dump := dump - {n};
      dump := dump + {n};
      pnl := pnl - {n};
      pnl := pnl + {n};
      CopyToPool(n, kind);
    }

    /** A copy of the pnl in the pool of the source's kind, or in none. */
    method CopyToPool(n: Name, kind: Option<PoolKind>)
      modifies `poolAutomated, `poolManual
      ensures poolAutomated == if kind == Some(Automated) then old(poolAutomated) + {n} else old(poolAutomated)
      ensures poolManual == if kind == Some(Manual) then old(poolManual) + {n} else old(poolManual)
    {
      match kind
      case Some(Automated) => poolAutomated := poolAutomated + {n};
      case Some(Manual) => poolManual := poolManual + {n};
      case None =>
    }

    /** alpha_src back to staging; refuses when there is nothing to move or staging is taken. */
    method Recall(n: Name) returns (err: Option<FileError>)
      modifies `src, `staging
      ensures var d := old(CellAt(n)).disk;
              err == (if d.src == NoDir then Some(FileNotFound) else if d.staging != NoDir then Some(FileExists) else None)
              && CellAt(n) == (if err.Some? then old(CellAt(n)) else old(CellAt(n)).(disk := d.(staging := d.src, src := NoDir)))
      ensures forall k :: k != n ==> CellAt(k) == old(CellAt(k))
    {
      if DirAt(src, n) == NoDir {
        return Some(FileNotFound);
      }
      if DirAt(staging, n) != NoDir {
        return Some(FileExists);
      }
      staging, src := staging[n := src[n]], src - {n};
      err := None;
    }

    method Unstage(n: Name) returns (existed: bool)
      modifies `staging
      ensures existed == (old(CellAt(n)).disk.staging != NoDir)
      ensures CellAt(n) == old(CellAt(n)).(disk := old(CellAt(n)).disk.(staging := NoDir))
      ensures forall k :: k != n ==> CellAt(k) == old(CellAt(k))
    {
      existed := DirAt(staging, n) != NoDir;
      staging := staging - {n};
    }

    method PurgeArtifacts(n: Name, serving: bool, check: bool)
      modifies `dump, `feature, `pnl, `poolAutomated, `poolManual
      ensures CellAt(n) == old(CellAt(n)).(disk := PurgedScopes(old(CellAt(n)).disk, serving, check))
      ensures forall k :: k != n ==> CellAt(k) == old(CellAt(k))
      ensures (n in dump <==> n in old(dump) && !serving) && (n in feature <==> n in old(feature) && !serving)
      ensures n in pnl <==> n in old(pnl) && !check
      ensures (n in poolAutomated <==> n in old(poolAutomated) && !check) && (n in poolManual <==> n in old(poolManual) && !check)
    {
      if serving {
        dump, feature := dump - {n}, feature - {n};
      }
      if check {
        pnl := pnl - {n};
        poolAutomated, poolManual := poolAutomated - {n}, poolManual - {n};
      }
    }

    method OnReject(n: Name, stage: StageName, kept: bool)
      requires n in staging
      modifies `src, `staging, `pnl, `dump, `feature
      ensures CellAt(n) == old(CellAt(n)).(disk := RejectedDisk(old(CellAt(n)).disk, stage, kept))
      ensures forall k :: k != n ==> CellAt(k) == old(CellAt(k))
      ensures n in src && src[n] == old(staging)[n] && n !in staging
      ensures stage in {Compliance, Correlation} ==>
                (n in pnl <==> n in old(pnl) || kept) && (n in dump <==> n in old(dump) || kept) && (n in feature <==> n in old(feature))
      ensures stage !in {Compliance, Correlation} ==> (n in pnl <==> n in old(pnl)) && n !in dump && n !in feature
    {
      src := src - {n};
      src := src[n := staging[n]];
      if KeepsArtifacts(stage) {
        if kept {
          pnl, dump := pnl + {n}, dump + {n};
        }
      } else {
        dump, feature := dump - {n}, feature - {n};
      }
      staging := staging - {n};
    }
  }
}
