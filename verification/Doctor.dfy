// The deletion gate through which every repair of the doctor goes (ops/services/doctor/guards.py:39-135).
module Doctor {
  import opened Prelude

  // ------------------------------------------------------------------ the file tree

  /** An absolute path by its components; Dafny's prefix order is "at or above". */
  type Path = seq<string>

  /** What is at a path: a link is not followed when something below it is listed. */
  datatype Kind = File | Dir | LinkToDir | LinkToFile | DanglingLink

  type Tree = map<Path, Kind>

  /** path.is_dir() and path.exists() follow links. */
  predicate IsDir(t: Tree, p: Path) {
    p in t && (t[p] == Dir || t[p] == LinkToDir)
  }

  predicate IsSymlink(t: Tree, p: Path) {
    p in t && (t[p] == LinkToDir || t[p] == LinkToFile || t[p] == DanglingLink)
  }

  predicate Exists(t: Tree, p: Path) {
    p in t && t[p] != DanglingLink
  }

  /** At p and below it, two trees are the same. */
  ghost predicate SameBelow(before: Tree, after: Tree, p: Path) {
    forall q :: p <= q ==> (q in after <==> q in before) && (q in before ==> after[q] == before[q])
  }

  /** p and everything below it. */
  function Subtree(t: Tree, p: Path): set<Path> {
    set q | q in t && p <= q
  }

  // ------------------------------------------------------------------ the gate's inputs

  datatype Action = Unlink | Rmtree | DiscardSnapshot | Unregistered

  datatype Outcome = Fixed | Locked | Vanished | Blocked | Error

  /** The configured roots; others are the declared data roots besides the first three. */
  datatype Config = Config(alphaSrc: Path, alphaPnl: Path, staging: Path, others: seq<Path>)

  /** What an arbitrary fixer answers for one finding: None is an exception. pathOk: the optional recheck of the target path,
      None when the fixer has none. */
  datatype Fixer = Fixer(action: Action, recheck: Option<bool>, target: Option<Path>, allowed: Option<seq<Path>>, pathOk: Option<Path -> Option<bool>>)

  /** How the file operation ends: done, or with an exception after part of a tree is gone. */
  datatype Ending = Completes | NotFound(part: set<Path>) | Fails(part: set<Path>)

  /** resolve is Path.resolve(), left open. */
  function RealOf(target: Path, resolve: Path -> Path): Path {
    if target == [] then resolve([]) else resolve(target[..|target| - 1]) + [target[|target| - 1]]
  }

  function Resolved(roots: seq<Path>, resolve: Path -> Path): (r: seq<Path>)
    ensures |r| == |roots| && forall i :: 0 <= i < |r| ==> r[i] == resolve(roots[i])
  {
    seq(|roots|, i requires 0 <= i < |roots| => resolve(roots[i]))
  }

  /** _within: equal to a root, or with a root among its parents. */
  predicate Within(p: Path, roots: seq<Path>) {
    exists i :: 0 <= i < |roots| && roots[i] <= p
  }

  predicate IsTmpResidue(p: Path) {
    p != [] && var name := p[|p| - 1];
    name != "" && name[0] == '.' && |name| >= 4 && name[|name| - 4..] == ".tmp"
  }

  function Protected(c: Config): seq<Path> {
    [c.alphaSrc, c.alphaPnl, c.staging]
  }

  function Forbidden(c: Config, resolve: Path -> Path): seq<Path> {
    Resolved(Protected(c), resolve)
  }

  function Declared(c: Config, resolve: Path -> Path): seq<Path> {
    Forbidden(c, resolve) + Resolved(c.others, resolve)
  }

  predicate CoversSome(p: Path, roots: seq<Path>) {
    exists i :: 0 <= i < |roots| && p <= roots[i]
  }

  /** The target is under no allowed root, or in a protected tree, or at or above a declared root, or belongs to an ACTIVE factor
      without being dot-temporary residue. */
  ghost predicate Refuses(allowed: seq<Path>, c: Config, active: bool, target: Path, resolve: Path -> Path) {
    || (forall i :: 0 <= i < |allowed| ==> !(resolve(allowed[i]) <= target))
    || resolve(c.alphaSrc) <= target || resolve(c.alphaPnl) <= target || resolve(c.staging) <= target
    || target <= resolve(c.alphaSrc) || target <= resolve(c.alphaPnl) || target <= resolve(c.staging)
    || (exists i :: 0 <= i < |c.others| && target <= resolve(c.others[i]))
    || (active && !exists mid :: IsResidue(target, mid))
  }

  /** The last component is .tmp, or a dot, mid, and .tmp. */
  predicate IsResidue(p: Path, mid: string) {
    p != [] && (p[|p| - 1] == ".tmp" || p[|p| - 1] == "." + mid + ".tmp")
  }

  /** How the operation ends: a directory is no file to unlink, a link or a file no tree to remove; otherwise the file, or all
      that is at or below the directory, goes as far as the file system lets it. */
  ghost predicate Ends(before: Tree, after: Tree, action: Action, target: Path, ending: Ending, outcome: Outcome) {
    var kind := if target in before then Some(before[target]) else None;
    if action == Unlink && kind in {Some(Dir), Some(LinkToDir)} then outcome == Blocked && after == before
    else if action == Rmtree && kind in {Some(LinkToDir), Some(LinkToFile), Some(DanglingLink), Some(File)} then outcome == Blocked && after == before
    else if kind == None then outcome == Vanished && after == before
    else
      var doomed := if action == Unlink then {target} else set q | q in before && target <= q;
      match ending
      case Completes => outcome == Fixed && after == before - doomed
      case NotFound(part) => outcome == Vanished && after == before - doomed * part
      case Fails(part) => outcome == Error && after == before - doomed * part
  }

  /** Only the last component of a target is not resolved. */
  lemma RealKeepsName(dir: Path, base: string, resolve: Path -> Path)
    ensures RealOf(dir + [base], resolve) == resolve(dir) + [base]
  {
    assert (dir + [base])[..|dir|] == dir;
  }

  lemma ResidueExactly(p: Path)
    ensures IsTmpResidue(p) <==> exists mid :: IsResidue(p, mid)
  {
    if p != [] {
      var name := p[|p| - 1];
      if IsTmpResidue(p) {
        var mid := if |name| >= 5 then name[1..|name| - 4] else "";
        assert |name| >= 5 ==> name == "." + mid + ".tmp";
        assert IsResidue(p, mid);
      }
      if mid :| IsResidue(p, mid) {
        assert |".tmp"| == 4 && name[|name| - 4..] == ".tmp";
      }
    }
  }

  lemma RefusesExactly(allowed: seq<Path>, c: Config, active: bool, target: Path, resolve: Path -> Path)
    ensures Refuses(allowed, c, active, target, resolve)
            <==> !Within(target, Resolved(allowed, resolve)) || Within(target, Forbidden(c, resolve))
                 || CoversSome(target, Declared(c, resolve)) || (active && !IsTmpResidue(target))
  {
    ResidueExactly(target);
    hide IsTmpResidue, IsResidue;
    var roots, forbidden, declared := Resolved(allowed, resolve), Forbidden(c, resolve), Declared(c, resolve);
    assert |forbidden| == 3 && forbidden[0] == resolve(c.alphaSrc) && forbidden[1] == resolve(c.alphaPnl) && forbidden[2] == resolve(c.staging);
    assert |declared| == 3 + |c.others|;
    forall i | 0 <= i < |declared|
      ensures declared[i] == if i < 3 then forbidden[i] else resolve(c.others[i - 3])
    {
    }
    assert forall i :: 0 <= i < |c.others| ==> resolve(c.others[i]) == declared[i + 3];
    AllowedExactly(allowed, target, resolve);
  }

  lemma AllowedExactly(allowed: seq<Path>, target: Path, resolve: Path -> Path)
    ensures Within(target, Resolved(allowed, resolve)) <==> !forall i :: 0 <= i < |allowed| ==> !(resolve(allowed[i]) <= target)
  {
    var roots := Resolved(allowed, resolve);
    if Within(target, roots) {
      var i :| 0 <= i < |roots| && roots[i] <= target;
      assert resolve(allowed[i]) <= target;
    }
    if i :| 0 <= i < |allowed| && resolve(allowed[i]) <= target {
      assert roots[i] <= target;
    }
  }

  // ------------------------------------------------------------------ the object

  class Storage {
    var tree: Tree
    var snapshots: set<string>

    /** shutil.rmtree and unlink, as far as they get. */
    method Remove(paths: set<Path>, ending: Ending)
      modifies `tree
      ensures tree == match ending
                      case Completes => old(tree) - paths
                      case NotFound(part) => old(tree) - (paths * part)
                      case Fails(part) => old(tree) - (paths * part)
    {
      match ending
      case Completes => tree := tree - paths;
      case NotFound(part) => tree := tree - (paths * part);
      case Fails(part) => tree := tree - (paths * part);
    }

    /** execute and _execute_locked. `busy`: another process holds the factor's lock; `active`: the factor is ACTIVE now. */
    method Execute(name: string, fixer: Fixer, c: Config, busy: bool, active: bool, resolve: Path -> Path, ending: Ending)
      returns (outcome: Outcome)
      modifies this
      ensures tree != old(tree) ==> outcome in {Fixed, Vanished, Error} && MayDelete(fixer, c, active, resolve)
                                    && !busy && fixer.recheck == Some(true)
      ensures forall p :: p in old(tree) && p !in tree ==> fixer.target.Some? && RealOf(fixer.target.value, resolve) <= p
      ensures forall p :: p in tree ==> p in old(tree) && tree[p] == old(tree)[p]
      ensures outcome == Fixed && fixer.action == Unlink ==> tree == old(tree) - {RealOf(fixer.target.GetOr([]), resolve)}
      ensures outcome == Fixed && fixer.action == Rmtree ==>
                tree == old(tree) - set p | p in old(tree) && RealOf(fixer.target.GetOr([]), resolve) <= p
      ensures snapshots != old(snapshots) ==>
                snapshots == old(snapshots) - {name} && outcome == Fixed && fixer.action == DiscardSnapshot && !active && !busy
      ensures outcome in {Locked, Blocked} ==> tree == old(tree) && snapshots == old(snapshots)
      ensures forall root <- Protected(c) :: SameBelow(old(tree), tree, resolve(root))
      ensures fixer.action == Unregistered ==> outcome == Blocked
      ensures fixer.action != Unregistered && busy ==> outcome == Locked
      ensures fixer.action != Unregistered && !busy && fixer.recheck == None ==> outcome == Error
      ensures fixer.action != Unregistered && !busy && fixer.recheck == Some(false) ==> outcome == Vanished
      ensures !busy && fixer.recheck == Some(true) && fixer.action == DiscardSnapshot ==>
                if active then outcome == Blocked else outcome == Fixed && snapshots == old(snapshots) - {name} && tree == old(tree)
      ensures !busy && fixer.recheck == Some(true) && fixer.action in {Unlink, Rmtree} && (fixer.target.None? || fixer.allowed.None?) ==> outcome == Error
      ensures !busy && fixer.recheck == Some(true) && fixer.action in {Unlink, Rmtree} && fixer.target.Some? && fixer.allowed.Some? ==>
                var target := RealOf(fixer.target.value, resolve);
                if Refuses(fixer.allowed.value, c, active, target, resolve) then outcome == Blocked
                else if fixer.pathOk.Some? && fixer.pathOk.value(target) != Some(true) then
                  outcome == if fixer.pathOk.value(target) == None then Error else Vanished
                else Ends(old(tree), tree, fixer.action, target, ending, outcome)
    {
      if fixer.action == Unregistered {
        return Blocked;
      }
      if busy {
        return Locked;
      }
      if fixer.recheck.None? {
        return Error;
      }
      if !fixer.recheck.value {
        return Vanished;
      }
      if fixer.action == DiscardSnapshot {
        if active {
          return Blocked;
        }
        snapshots := snapshots - {name};
        return Fixed;
      }
      if fixer.target.None? || fixer.allowed.None? {
        return Error;
      }
      var target := RealOf(fixer.target.value, resolve);
      var allowed := Resolved(fixer.allowed.value, resolve);
      RefusesExactly(fixer.allowed.value, c, active, target, resolve);
      hide Refuses, Within, CoversSome, Declared, IsTmpResidue, Ends;
      if allowed == [] || !Within(target, allowed) {
        return Blocked;
      }
      if Within(target, Forbidden(c, resolve)) {
        return Blocked;
      }
      if CoversSome(target, Declared(c, resolve)) {
        return Blocked;
      }
      if active && !IsTmpResidue(target) {
        return Blocked;
      }
      if fixer.pathOk.Some? {
        var ok := fixer.pathOk.value(target);
        if ok.None? {
          return Error;
        }
        if !ok.value {
          return Vanished;
        }
      }
      outcome := Delete(fixer.action, target, ending);
      forall root | root in Protected(c)
        ensures SameBelow(old(tree), tree, resolve(root))
      {
        ProtectedTreesStay(old(tree), tree, fixer, c, active, resolve, root);
      }
    }

    /** The last gate, by the shape of the target, and the operation itself. */
    method Delete(action: Action, target: Path, ending: Ending) returns (outcome: Outcome)
      requires action == Unlink || action == Rmtree
      modifies `tree
      ensures forall p :: p in old(tree) && p !in tree ==> target <= p
      ensures forall p :: p in tree ==> p in old(tree) && tree[p] == old(tree)[p]
      ensures outcome in {Fixed, Vanished, Error, Blocked} && (outcome == Blocked ==> tree == old(tree))
      ensures outcome == Fixed && action == Unlink ==> tree == old(tree) - {target}
      ensures outcome == Fixed && action == Rmtree ==> tree == old(tree) - set p | p in old(tree) && target <= p
      ensures Ends(old(tree), tree, action, target, ending, outcome)
      ensures action == Unlink && target in old(tree) && old(tree)[target] in {Dir, LinkToDir} ==> outcome == Blocked
      ensures action == Rmtree && target in old(tree) && old(tree)[target] != Dir ==> outcome == Blocked
      ensures target !in old(tree) ==> outcome == Vanished && tree == old(tree)
      ensures target in old(tree) && outcome == Blocked ==> if action == Unlink then old(tree)[target] in {Dir, LinkToDir} else old(tree)[target] != Dir
      ensures target in old(tree) && outcome != Blocked ==>
                outcome == match ending case Completes => Fixed case NotFound(_) => Vanished case Fails(_) => Error
    {
      if action == Unlink {
        if IsDir(tree, target) {
          return Blocked;
        }
        if target !in tree {
          return Vanished;
        }
        Remove({target}, ending);
      } else {
        if IsSymlink(tree, target) {
          return Blocked;
        }
        if !IsDir(tree, target) {
          if !Exists(tree, target) {
            return Vanished;
          }
          return Blocked;
        }
        Remove(Subtree(tree, target), ending);
      }
      return match ending case Completes => Fixed case NotFound(_) => Vanished case Fails(_) => Error;
    }
  }

  // ------------------------------------------------------------------ what the gates guarantee

  /** The gates that a target has passed when anything is deleted. */
  ghost predicate MayDelete(fixer: Fixer, c: Config, active: bool, resolve: Path -> Path) {
    && (fixer.action == Unlink || fixer.action == Rmtree)
    && fixer.target.Some? && fixer.allowed.Some?
    && var target := RealOf(fixer.target.value, resolve);
    && Within(target, Resolved(fixer.allowed.value, resolve))
    && !Within(target, Forbidden(c, resolve))
    && !CoversSome(target, Declared(c, resolve))
    && (active ==> IsTmpResidue(target))
    && (fixer.pathOk.Some? ==> fixer.pathOk.value(target) == Some(true))
  }

  lemma PrefixesOfOne(a: Path, b: Path, p: Path)
    requires a <= p && b <= p
    ensures a <= b || b <= a
  {
    assert a == p[..|a|] && b == p[..|b|];
  }

  /** Whatever a fixer answers and wherever links lead: a path that the gate lets go is inside an allowed root, lies in none of
      the alpha_src, alpha_pnl and staging trees, is no declared data root, and has none below it; of an ACTIVE factor only
      dot-temporary residue goes. */
  lemma GateProtects(fixer: Fixer, c: Config, active: bool, resolve: Path -> Path, p: Path)
    requires MayDelete(fixer, c, active, resolve) && RealOf(fixer.target.value, resolve) <= p
    ensures Within(p, Resolved(fixer.allowed.value, resolve))
    ensures !(resolve(c.alphaSrc) <= p) && !(resolve(c.alphaPnl) <= p) && !(resolve(c.staging) <= p)
    ensures forall r <- Declared(c, resolve) :: !(p <= r)
    ensures active ==> IsTmpResidue(RealOf(fixer.target.value, resolve))
  {
    var target := RealOf(fixer.target.value, resolve);
    var allowed := Resolved(fixer.allowed.value, resolve);
    var i :| 0 <= i < |allowed| && allowed[i] <= target;
    assert allowed[i] <= p;
    NotInTree(target, c, resolve, 0, p);
    NotInTree(target, c, resolve, 1, p);
    NotInTree(target, c, resolve, 2, p);
    forall r | r in Declared(c, resolve)
      ensures !(p <= r)
    {
      var j :| 0 <= j < |Declared(c, resolve)| && Declared(c, resolve)[j] == r;
    }
  }

  lemma NotInTree(target: Path, c: Config, resolve: Path -> Path, i: nat, p: Path)
    requires i < 3 && target <= p && !Within(target, Forbidden(c, resolve)) && !CoversSome(target, Declared(c, resolve))
    ensures !(Forbidden(c, resolve)[i] <= p)
  {
    var f := Forbidden(c, resolve)[i];
    assert Declared(c, resolve)[i] == f;
    if f <= p {
      PrefixesOfOne(target, f, p);
    }
  }

  /** Each of the three protected trees is untouched by what the gate lets go. */
  lemma ProtectedTreesStay(before: Tree, after: Tree, fixer: Fixer, c: Config, active: bool, resolve: Path -> Path, root: Path)
    requires root in Protected(c)
    requires after != before ==> MayDelete(fixer, c, active, resolve)
    requires forall p :: p in before && p !in after ==> fixer.target.Some? && RealOf(fixer.target.value, resolve) <= p
    requires forall p :: p in after ==> p in before && after[p] == before[p]
    ensures SameBelow(before, after, resolve(root))
  {
    forall p | resolve(root) <= p && p in before
      ensures p in after
    {
      if p !in after {
        GateProtects(fixer, c, active, resolve, p);
      }
    }
  }
}
