/**
 Removing one path, whatever it turned out to be, and removing what the scan reported.

 Models `remove_path` and `remove_unexplained` of rust-lib/src/keystore.rs. The recursive
 removal they rest on goes entry by entry and stops at the first one it cannot take: a
 directory that does not list, or one whose entries cannot be unlinked. `remove_path` opens
 the directory it was given and tries once more; those below it stay as they are.
 */
module Removal {
  import opened Base
  import opened Text
  import opened Layout
  import opened Tree
  import opened Scan
  import opened Coverage
  import opened Reports

  // ---- a recursive removal -------------------------------------------------------------

  /** Nothing in here stops a recursive removal: it all lists, and lets go of what it holds. */
  predicate Yields(node: Node) {
    node.Dir? ==>
      && node.complete && (node.entries == map[] || node.writable)
      && forall n :: n in node.entries ==> Yields(node.entries[n])
  }

  /** The same of what a directory holds, the directory itself being opened on the way. */
  predicate Clearable(node: Node) {
    node.Dir? ==> forall n :: n in node.entries ==> Yields(node.entries[n])
  }

  /**
   What a stopped removal leaves of something it did not take: directories keep their modes,
   one that does not list is untouched, and only what yields is gone.
   */
  ghost predicate Kept(x: Node, y: Node) {
    y == x || (
      && x.Dir? && y.Dir? && x.complete && y.complete && y.writable == x.writable
      && y.shown == y.entries.Keys && y.entries.Keys <= x.entries.Keys
      && (x.writable || y.entries.Keys == x.entries.Keys)
      && forall n :: n in x.entries ==> if n in y.entries then Kept(x.entries[n], y.entries[n]) else Yields(x.entries[n]))
  }

  /** What a refused removal leaves of what was named: a directory is left open. */
  ghost predicate LeftOf(node: Node, left: Node) {
    if !node.Dir? then left == node
    else
      && left.Dir? && left.complete && left.writable
      && left.shown == left.entries.Keys && left.entries.Keys <= node.entries.Keys
      && (forall n :: n in node.entries ==>
            if n in left.entries then Kept(node.entries[n], left.entries[n]) else Yields(node.entries[n]))
      && (Clearable(node) ==> left.entries == map[])
  }

  lemma {:induction false} KeptYields(x: Node, y: Node)
    requires Kept(x, y)
    ensures Yields(x) <==> Yields(y)
    decreases x
  {
    if y != x {
      forall n | n in y.entries ensures Yields(x.entries[n]) <==> Yields(y.entries[n]) {
        KeptYields(x.entries[n], y.entries[n]);
      }
    }
  }

  lemma {:induction false} KeptTwice(x: Node, y: Node, z: Node)
    requires Kept(x, y) && Kept(y, z)
    ensures Kept(x, z)
    decreases x
  {
    if x != y && y != z {
      forall n | n in x.entries ensures if n in z.entries then Kept(x.entries[n], z.entries[n]) else Yields(x.entries[n]) {
        if n in z.entries {
          KeptTwice(x.entries[n], y.entries[n], z.entries[n]);
        } else if n in y.entries {
          KeptYields(x.entries[n], y.entries[n]);
        }
      }
    }
  }

  lemma {:induction false} KeptValid(x: Node, y: Node)
    requires ValidTree(x) && Kept(x, y)
    ensures ValidTree(y)
    decreases x
  {
    if y != x {
      forall n | n in y.entries ensures ValidTree(y.entries[n]) {
        KeptValid(x.entries[n], y.entries[n]);
      }
    }
  }

  lemma LeftValid(node: Node, left: Node)
    requires ValidTree(node) && LeftOf(node, left)
    ensures ValidTree(left)
  {
    if node.Dir? {
      forall n | n in left.entries ensures ValidTree(left.entries[n]) {
        KeptValid(node.entries[n], left.entries[n]);
      }
    }
  }

  lemma {:induction false} KeptIsRemnant(x: Node, y: Node)
    requires Kept(x, y)
    ensures Remnant(x, y)
    decreases x
  {
    if y != x {
      forall n | n in y.entries ensures Remnant(x.entries[n], y.entries[n]) {
        KeptIsRemnant(x.entries[n], y.entries[n]);
      }
    }
  }

  /** One pass over a directory: everything in it goes, in any order, up to the first that will not. */
  method ClearOut(node: Node) returns (ok: bool, left: Node)
    requires node.Dir? && ValidTree(node)
    ensures ok <==> Yields(node)
    ensures left.Dir? && Kept(node, left)
    ensures ok ==> left.entries == map[]
    decreases node
  {
    left := node;
    if !node.complete {
      return false, left;
    }
    var todo := node.shown;
    while todo != {}
      invariant TodoLeft(node, left, todo)
      decreases todo
    {
      var n :| n in todo;
      var child := node.entries[n];
      var emptied, now := true, child;
      if child.Dir? {
        emptied, now := ClearOut(child);
      }
      if !emptied || !node.writable {
        StoppedInside(node, left, todo, n, now);
        return false, left.(entries := left.entries[n := now]);
      }
      TookOne(node, left, todo, n);
      left := left.(entries := left.entries - {n}, shown := left.shown - {n});
      todo := todo - {n};
    }
    ok := true;
  }

  /** So far exactly `todo` is left of a directory, as it was. */
  ghost predicate TodoLeft(node: Node, left: Node, todo: set<string>)
    requires node.Dir?
  {
    && left.Dir? && left.complete && left.writable == node.writable
    && left.shown == left.entries.Keys == todo <= node.entries.Keys
    && (forall n :: n in todo ==> left.entries[n] == node.entries[n])
    && (forall n :: n in node.entries && n !in todo ==> Yields(node.entries[n]))
    && (node.writable || todo == node.entries.Keys)
  }

  lemma TookOne(node: Node, left: Node, todo: set<string>, n: string)
    requires node.Dir? && node.writable && TodoLeft(node, left, todo) && n in todo && Yields(node.entries[n])
    ensures TodoLeft(node, left.(entries := left.entries - {n}, shown := left.shown - {n}), todo - {n})
  {
  }

  /** A pass stopped at one entry: that one is part-way, the rest is there or gone. */
  lemma StoppedInside(node: Node, left: Node, todo: set<string>, n: string, now: Node)
    requires node.Dir? && node.complete && TodoLeft(node, left, todo) && n in todo && Kept(node.entries[n], now)
    ensures Kept(node, left.(entries := left.entries[n := now]))
  {
    var es := left.entries[n := now];
    forall x | x in node.entries ensures if x in es then Kept(node.entries[x], es[x]) else Yields(node.entries[x]) {
      assert x != n && x in es ==> es[x] == node.entries[x];
    }
  }

  /**
   `remove_path`, in a directory whose entries can be unlinked or not: a directory that would
   not be cleared is opened and tried once more.
   */
  method RemovePath(node: Option<Node>, loose: bool) returns (r: Result<bool>, left: Option<Node>)
    requires node.Some? ==> ValidTree(node.value)
    ensures node.None? ==> r == Ok(false) && left == None
    ensures node.Some? && loose && Clearable(node.value) ==> r == Ok(true) && left == None
    ensures node.Some? && !(loose && Clearable(node.value)) ==>
      r == Err(IoError) && left.Some? && LeftOf(node.value, left.value)
  {
    if node.None? {
      return Ok(false), None;
    }
    var named := node.value;
    if !named.Dir? {
      return if loose then Ok(true) else Err(IoError), if loose then None else node;
    }
    var ok, first := ClearOut(named);
    if ok && loose {
      return Ok(true), None;
    }
    var opened_ := first.(shown := first.entries.Keys, complete := true, writable := true);
    KeptValid(named, first);
    FirstPass(named, first, opened_);
    var again, second := ClearOut(opened_);
    if again && loose {
      return Ok(true), None;
    }
    SecondPass(named, opened_, second, again);
    return Err(IoError), Some(second);
  }

  /** Where the first pass got to, with the directory opened. */
  ghost predicate Reopened(named: Node, now: Node) {
    && named.Dir? && now.Dir? && now.complete && now.writable && now.shown == now.entries.Keys
    && now.entries.Keys <= named.entries.Keys
    && forall n :: n in named.entries ==>
         if n in now.entries then Kept(named.entries[n], now.entries[n]) else Yields(named.entries[n])
  }

  lemma FirstPass(named: Node, first: Node, now: Node)
    requires named.Dir? && ValidTree(named) && first.Dir? && Kept(named, first)
    requires now == first.(shown := first.entries.Keys, complete := true, writable := true)
    ensures Reopened(named, now) && ValidTree(now)
    ensures Yields(now) <==> Clearable(named)
  {
    KeptValid(named, first);
    forall n | n in now.entries ensures Yields(named.entries[n]) <==> Yields(now.entries[n]) {
      KeptYields(named.entries[n], now.entries[n]);
    }
  }

  lemma SecondPass(named: Node, now: Node, second: Node, again: bool)
    requires Reopened(named, now) && second.Dir? && Kept(now, second)
    requires again <==> Clearable(named)
    requires again ==> second.entries == map[]
    ensures LeftOf(named, second)
  {
    forall n | n in named.entries
      ensures if n in second.entries then Kept(named.entries[n], second.entries[n]) else Yields(named.entries[n])
    {
      if n in second.entries {
        KeptTwice(named.entries[n], now.entries[n], second.entries[n]);
      } else if n in now.entries {
        KeptYields(named.entries[n], now.entries[n]);
      }
    }
  }

  /** The host can always leave something. */
  lemma SomethingIsLeft(node: Node) returns (left: Node)
    ensures LeftOf(node, left)
  {
    left := if !node.Dir? then node
            else if Clearable(node) then Dir(map[], {}, true, true)
            else Dir(node.entries, node.entries.Keys, true, true);
  }

  // ---- in its place --------------------------------------------------------------------

  /** The tree with this in place of what is at `path`, or with nothing there. */
  function LeaveAt(node: Node, path: Path, left: Option<Node>): Node
    requires path != [] && Lookup(node, path).Some?
    decreases path
  {
    if |path| > 1 then node.(entries := node.entries[path[0] := LeaveAt(node.entries[path[0]], path[1..], left)])
    else if left.Some? then node.(entries := node.entries[path[0] := left.value])
    else node.(entries := node.entries - {path[0]}, shown := node.shown - {path[0]})
  }

  predicate IsPrefix(p: Path, q: Path) {
    |p| <= |q| && q[..|p|] == p
  }

  lemma PrefixStep(p: Path, q: Path)
    requires p != [] && q != [] && p[0] == q[0]
    ensures IsPrefix(p, q) == IsPrefix(p[1..], q[1..])
    ensures |p| <= |q| ==> q[1..][|p| - 1..] == q[|p|..]
  {
    if |p| <= |q| {
      assert q[..|p|] == [q[0]] + q[1..][..|p| - 1];
      assert p == [p[0]] + p[1..];
    }
  }

  /** At and under the path there is what was left; beside it everything is as it was. */
  lemma {:induction false} LeaveAtLookup(node: Node, path: Path, left: Option<Node>, q: Path)
    requires path != [] && Lookup(node, path).Some?
    ensures IsPrefix(path, q) ==>
      Lookup(LeaveAt(node, path, left), q) == if left.None? then None else Lookup(left.value, q[|path|..])
    ensures !IsPrefix(path, q) && !IsPrefix(q, path) ==> Lookup(LeaveAt(node, path, left), q) == Lookup(node, q)
    decreases path
  {
    if q != [] {
      if |path| == 1 {
        assert q[0] == path[0] ==> q[..1] == path;
      } else if q[0] == path[0] {
        LeaveAtLookup(node.entries[path[0]], path[1..], left, q[1..]);
        PrefixStep(path, q);
        PrefixStep(q, path);
      }
    }
  }

  /** The directories above it keep their modes, and everything else they hold. */
  lemma {:induction false} LeaveAtAbove(node: Node, path: Path, left: Option<Node>, q: Path)
    requires path != [] && Lookup(node, path).Some? && IsPrefix(q, path) && q != path
    ensures Lookup(node, q).Some? && Lookup(node, q).value.Dir? && path[|q|] in Lookup(node, q).value.entries
    ensures
      var was, now := Lookup(node, q).value, Lookup(LeaveAt(node, path, left), q);
      && now.Some? && now.value.Dir? && now.value.complete == was.complete && now.value.writable == was.writable
      && now.value.entries.Keys == if left.None? && |path| == |q| + 1 then was.entries.Keys - {path[|q|]} else was.entries.Keys
    decreases path
  {
    if q != [] {
      PrefixStep(q, path);
      assert path[1..][|q| - 1] == path[|q|];
      assert q == [q[0]] + q[1..] && path == [path[0]] + path[1..];
      LeaveAtAbove(node.entries[path[0]], path[1..], left, q[1..]);
    }
  }

  lemma {:induction false} LeaveAtValid(node: Node, path: Path, left: Option<Node>)
    requires ValidTree(node) && path != [] && Lookup(node, path).Some?
    requires left.Some? ==> ValidTree(left.value)
    ensures ValidTree(LeaveAt(node, path, left)) && LeaveAt(node, path, left).Dir?
    ensures LeaveAt(node, path, left).complete == node.complete && LeaveAt(node, path, left).writable == node.writable
    decreases path
  {
    if |path| > 1 {
      LeaveAtValid(node.entries[path[0]], path[1..], left);
    }
  }

  // ---- remove_unexplained --------------------------------------------------------------

  /** What is at this path can be unlinked from the directory that holds it. */
  predicate Loose(root: Node, path: Path)
    requires path != []
  {
    var above := Lookup(root, path[..|path| - 1]);
    above.Some? && above.value.Dir? && above.value.writable
  }

  /**
   One call, where no peer holds the lock: the tree it leaves, and what it answered. Where the
   removal is refused, `left` is what is left of what was named.
   */
  ghost function RemoveReported(root: Node, rel: string, acknowledge: bool, left: Node): (Node, Result<bool>)
    requires root.Dir?
  {
    var found := Scanned(Some(root));
    if found.Err? then (root, Err(found.error))
    else if rel !in UnexplainedAll(found.value) then (root, Err(NotFound))
    else if !acknowledge then (root, Err(Refused))
    else
      match Reported(rel)
      case None => (root, Err(InvalidParams))
      case Some(path) =>
        if !LockAvailable(root) then (root, Err(Refused))
        else
          var locked := Locked(root);
          var node := Lookup(locked, path);
          if node.None? then (locked, Ok(false))
          else if Loose(locked, path) && Clearable(node.value) then (LeaveAt(locked, path, None), Ok(true))
          else (LeaveAt(locked, path, Some(left)), Err(IoError))
  }

  /** `left` is something a refused removal of this report can leave. */
  ghost predicate Leaves(root: Node, rel: string, left: Node)
    requires root.Dir?
  {
    var path := Reported(rel);
    path.Some? && Lookup(Locked(root), path.value).Some? ==> LeftOf(Lookup(Locked(root), path.value).value, left)
  }

  ghost predicate IsListed(root: Node, rel: string)
    requires Sound(root)
  {
    rel in UnexplainedAll(Scanned(Some(root)).value)
  }

  /**
   An acknowledged removal of a reported path succeeds exactly where the lock file can be
   opened, the path can be unlinked from its directory, and nothing below it stands in the
   way. A directory below it that does not list does, and so does one that cannot be written
   and is not empty.
   */
  lemma ReportedIsRemovable(root: Node, rel: string, left: Node)
    requires Sound(root) && IsListed(root, rel)
    ensures Reported(rel).Some? && Lookup(root, Reported(rel).value).Some?
    ensures RemoveReported(root, rel, true, left).1 == Ok(true) <==>
      LockAvailable(root) && Loose(root, Reported(rel).value) && Clearable(Lookup(root, Reported(rel).value).value)
  {
    var path := ReportedPath(root, rel);
    LookupLocked(root, path);
    LooseLocked(root, path);
  }

  /**
   Every answer of a call: not found iff the path is not reported just now; refused, with nothing
   changed, if it is not acknowledged or the lock cannot be taken; gone, or not to be removed.
   That a reported path is no longer there, or is no path, never happens.
   */
  lemma AnswersExactly(root: Node, rel: string, acknowledge: bool, left: Node)
    requires Sound(root)
    ensures
      var (after, r) := RemoveReported(root, rel, acknowledge, left);
      && (r == Err(NotFound) <==> !IsListed(root, rel))
      && (r == Err(Refused) <==> IsListed(root, rel) && (!acknowledge || !LockAvailable(root)))
      && (r == Err(NotFound) || r == Err(Refused) ==> after == root)
      && r in {Ok(true), Err(NotFound), Err(Refused), Err(IoError)}
  {
    if IsListed(root, rel) {
      var path := ReportedPath(root, rel);
      LookupLocked(root, path);
    }
  }

  lemma LooseLocked(root: Node, path: Path)
    requires root.Dir? && path != [] && Lookup(root, path).Some?
    ensures Loose(Locked(root), path) == Loose(root, path)
  {
    LookupThrough(root, path, |path| - 1);
    LookupLocked(root, path[..|path| - 1]);
  }

  /** Everything one call can do to a store. */
  lemma OneCall(root: Node, rel: string, left: Node) returns (path: Path)
    requires Sound(root) && Leaves(root, rel, left)
    ensures !IsListed(root, rel) || !LockAvailable(root) ==> RemoveReported(root, rel, true, left).0 == root
    ensures IsListed(root, rel) ==>
      && Reported(rel) == Some(path) && ValidPath(path) && Visited(root, path, 0)
      && Lookup(root, path).Some? && Lookup(Locked(root), path) == Lookup(root, path)
      && IsReported(path, Lookup(root, path).value)
    ensures IsListed(root, rel) && LockAvailable(root) ==>
      var (after, r) := RemoveReported(root, rel, true, left);
      var node := Lookup(root, path).value;
      if Loose(root, path) && Clearable(node) then r == Ok(true) && after == LeaveAt(Locked(root), path, None)
      else r == Err(IoError) && after == LeaveAt(Locked(root), path, Some(left)) && LeftOf(node, left)
  {
    path := [];
    if IsListed(root, rel) {
      path := ReportedPath(root, rel);
      LookupLocked(root, path);
      LooseLocked(root, path);
    }
  }

  /** However a call ends, the tree is a tree, and the lock can still be taken. */
  lemma CallKeepsSound(root: Node, rel: string, left: Node)
    requires Sound(root) && Leaves(root, rel, left)
    ensures
      var after := RemoveReported(root, rel, true, left).0;
      && Sound(after) && after.writable == root.writable && (LockAvailable(root) ==> LockAvailable(after))
  {
    var path := OneCall(root, rel, left);
    if IsListed(root, rel) && LockAvailable(root) {
      LockedValid(root);
      PathNamesValid(root, path);
      if !(Loose(root, path) && Clearable(Lookup(root, path).value)) {
        LeftValid(Lookup(root, path).value, left);
        LeaveAtValid(Locked(root), path, Some(left));
        LockStays(root, path, Some(left));
      } else {
        LeaveAtValid(Locked(root), path, None);
        LockStays(root, path, None);
      }
    }
  }

  lemma LockStays(root: Node, path: Path, left: Option<Node>)
    requires Sound(root) && LockAvailable(root) && path != []
    requires Lookup(root, path).Some? && Lookup(Locked(root), path) == Lookup(root, path)
    requires if left.Some? then LeftOf(Lookup(root, path).value, left.value) else Loose(root, path)
    ensures LockAvailable(LeaveAt(Locked(root), path, left))
  {
    assert path[..0] == [];
    assert |path| == 1 ==> path[1..] == [];
  }

  // ---- two that are refused ------------------------------------------------------------

  /** The state in which a report is a dead end: a directory where the lock belongs. */
  lemma LockDirectoryIsADeadEnd(left: Node)
    ensures
      var root := Dir(map[LOCK := Dir(map[], {}, true, true)], {LOCK}, true, true);
      && Sound(root) && IsListed(root, LOCK)
      && RemoveReported(root, LOCK, true, left) == (root, Err(Refused))
  {
    var inner := Dir(map[], {}, true, true);
    var root := Dir(map[LOCK := inner], {LOCK}, true, true);
    LockName();
    assert ValidTree(inner);
    assert ValidTree(root);
    assert Classify([LOCK], IsDir) == Unexplained by {
      assert LOCK[1] == 'l' && STAGE_PREFIX[1] == 's';
      assert !StartsWith(LOCK, STAGE_PREFIX);
    }
    ChildIsListed(root, LOCK);
    assert RelStr([LOCK]) == LOCK;
  }

  lemma ChildIsListed(root: Node, n: string)
    requires Sound(root) && n in root.entries && IsReported([n], root.entries[n])
    ensures IsListed(root, RelStr([n])) && Reported(RelStr([n])) == Some([n])
  {
    assert [n][1..] == [];
    assert Visited(root, [n], 0) && Lookup(root, [n]) == Some(root.entries[n]);
    VisitedIsReported(root, [n]);
  }

  function Holding(n: string, node: Node, writable: bool): Node {
    Dir(map[n := node], {n}, true, writable)
  }

  /**
   A stray directory is reported and the lock is free, and all the same it cannot be removed:
   nobody may open the directory inside it, and only the one that was named is opened.
   */
  lemma ShutInsideIsRefused(stray: string, inner: string, left: Node)
    requires ValidName(stray) && ValidName(inner) && stray != LOCK && Classify([stray], IsDir) == Unexplained
    ensures
      var root := Holding(stray, Holding(inner, Dir(map[], {}, false, true), true), true);
      && Sound(root) && IsListed(root, RelStr([stray])) && LockAvailable(root)
      && RemoveReported(root, RelStr([stray]), true, left).1 == Err(IoError)
  {
    var shut := Dir(map[], {}, false, true);
    var named := Holding(inner, shut, true);
    var root := Holding(stray, named, true);
    assert ValidTree(shut);
    assert ValidTree(named);
    assert ValidTree(root);
    ChildIsListed(root, stray);
    ReportedIsRemovable(root, RelStr([stray]), left);
    assert Lookup(root, [stray]).value == named by {
      assert [stray][1..] == [];
    }
    assert !Yields(named.entries[inner]);
  }

  /**
   What a refused removal leaves: what was named is still there, with only what yields gone
   from it and itself open, nothing beside it has changed, and it still cannot be removed.
   */
  lemma RefusedRemoval(root: Node, rel: string, left: Node, q: Path) returns (path: Path)
    requires Sound(root) && IsListed(root, rel) && Leaves(root, rel, left)
    requires RemoveReported(root, rel, true, left).1 == Err(IoError)
    ensures Reported(rel) == Some(path) && path != [] && Lookup(root, path).Some?
    ensures
      var after := RemoveReported(root, rel, true, left).0;
      var node := Lookup(root, path).value;
      && Lookup(after, path) == Some(left) && Remnant(node, left)
      && (node.Dir? ==> left.Dir? && left.complete && left.writable)
      && (!IsPrefix(path, q) && !IsPrefix(q, path) ==> Lookup(after, q) == Lookup(Locked(root), q))
      && !(Loose(after, path) && Clearable(left))
  {
    path := OneCall(root, rel, left);
    var node := Lookup(root, path).value;
    LeaveAtLookup(Locked(root), path, Some(left), q);
    LeaveAtLookup(Locked(root), path, Some(left), path);
    assert IsPrefix(path, path) && path[|path|..] == [];
    LeaveAtAbove(Locked(root), path, Some(left), path[..|path| - 1]);
    LooseLocked(root, path);
    LeftIsRemnant(node, left);
  }

  lemma LeftIsRemnant(node: Node, left: Node)
    requires LeftOf(node, left)
    ensures Remnant(node, left)
    ensures Clearable(left) ==> Clearable(node)
  {
    if node.Dir? {
      forall n | n in left.entries ensures Remnant(node.entries[n], left.entries[n]) {
        KeptIsRemnant(node.entries[n], left.entries[n]);
      }
      forall n | n in left.entries ensures Yields(left.entries[n]) <==> Yields(node.entries[n]) {
        KeptYields(node.entries[n], left.entries[n]);
      }
    }
  }

  // ---- what a removal spares -----------------------------------------------------------

  /** Under a directory the layout does not explain, it explains nothing. */
  lemma UnexplainedAllTheWayDown(path: Path, rest: Path, kind: Kind)
    requires path != [] && Classify(path, IsDir) == Unexplained && rest != []
    ensures Classify(path + rest, kind) == Unexplained
  {
    var whole := path + rest;
    assert whole[0] == path[0];
    if |whole| == 2 {
      assert whole == [path[0], rest[0]];
    } else if |whole| == 3 && |path| == 2 {
      assert whole[1] == path[1];
    }
  }

  /** Every account vault under the root, with what it holds. */
  ghost predicate SameVaults(a: Node, b: Node)
    requires a.Dir? && b.Dir?
  {
    forall addr :: IsAddr(addr) ==> SameVault(a, b, VaultFile(addr))
  }

  ghost predicate SameVault(a: Node, b: Node, name: string)
    requires a.Dir? && b.Dir?
  {
    (name in a.entries && a.entries[name].File?) || (name in b.entries && b.entries[name].File?) ==>
      name in a.entries && name in b.entries && a.entries[name] == b.entries[name]
  }

  lemma LockIsNoVault(addr: string)
    requires IsAddr(addr)
    ensures VaultFile(addr) != LOCK
  {
    RootFilesDistinct(addr, Groups);
  }

  /** However a removal ends, every account vault is exactly as it was. */
  lemma RemovalSparesVaults(root: Node, rel: string, left: Node)
    requires Sound(root) && Leaves(root, rel, left)
    ensures Sound(RemoveReported(root, rel, true, left).0)
    ensures SameVaults(root, RemoveReported(root, rel, true, left).0)
  {
    var path := OneCall(root, rel, left);
    CallKeepsSound(root, rel, left);
    var after := RemoveReported(root, rel, true, left).0;
    if IsListed(root, rel) && LockAvailable(root) {
      forall addr | IsAddr(addr) ensures SameVault(root, after, VaultFile(addr)) {
        LockIsNoVault(addr);
        VaultIsNotReported(root, path, addr);
        if Loose(root, path) && Clearable(Lookup(root, path).value) {
          OthersStay(root, path, None, VaultFile(addr));
        } else {
          OthersStay(root, path, Some(left), VaultFile(addr));
        }
      }
    }
  }

  /** A name that is not the file named is a file after a call exactly if it was one before. */
  lemma OthersStay(root: Node, path: Path, left: Option<Node>, name: string)
    requires Sound(root) && path != [] && Lookup(root, path).Some? && Lookup(Locked(root), path) == Lookup(root, path)
    requires left.Some? ==> LeftOf(Lookup(root, path).value, left.value)
    requires name != LOCK && (path[0] == name ==> !root.entries[name].File?)
    ensures LeaveAt(Locked(root), path, left).Dir? && SameVault(root, LeaveAt(Locked(root), path, left), name)
  {
    assert |path| == 1 ==> path[1..] == [];
  }

  lemma VaultIsNotReported(root: Node, path: Path, addr: string)
    requires Sound(root) && IsAddr(addr) && Visited(root, path, 0) && Lookup(root, path).Some?
    requires IsReported(path, Lookup(root, path).value)
    ensures path[0] == VaultFile(addr) ==> !root.entries[path[0]].File?
  {
    if path[0] == VaultFile(addr) && root.entries[path[0]].File? {
      assert |path| == 1 && path == [VaultFile(addr)] && path[1..] == [];
      ClassifyInvertsRel(path, IsFile, VaultEntry(addr));
    }
  }

  /**
   Removing a path the layout does not explain takes no file it does explain, wherever that
   file is and however the removal ends: only a directory that is explained and does not list
   can have one inside.
   */
  lemma RemovalSparesExplainedFiles(root: Node, rel: string, left: Node, q: Path)
    requires Sound(root) && Leaves(root, rel, left)
    requires Reported(rel).Some? && Lookup(root, Reported(rel).value).Some?
    requires Classify(Reported(rel).value, KindOf(Lookup(root, Reported(rel).value).value)) == Unexplained
    requires q != [] && Lookup(root, q).Some? && Lookup(root, q).value.File?
    requires Classify(q, IsFile) != Unexplained
    ensures Lookup(RemoveReported(root, rel, true, left).0, q) == Lookup(root, q)
  {
    var path := OneCall(root, rel, left);
    if IsListed(root, rel) && LockAvailable(root) {
      LookupLocked(root, q);
      LeaveAtLookup(Locked(root), path, Some(left), q);
      LeaveAtLookup(Locked(root), path, None, q);
      ExplainedIsApart(root, path, q);
    }
  }

  lemma ExplainedIsApart(root: Node, path: Path, q: Path)
    requires path != [] && Lookup(root, path).Some?
    requires Classify(path, KindOf(Lookup(root, path).value)) == Unexplained
    requires q != [] && Lookup(root, q).Some? && Lookup(root, q).value.File? && Classify(q, IsFile) != Unexplained
    ensures !IsPrefix(path, q) && !IsPrefix(q, path)
  {
    if IsPrefix(path, q) {
      var rest := q[|path|..];
      assert q == path + rest;
      LookupThrough(root, q, |path|);
      assert rest == [] ==> q == path;
      if rest != [] {
        UnexplainedAllTheWayDown(path, rest, IsFile);
      }
    } else if IsPrefix(q, path) {
      LookupThrough(root, path, |q|);
    }
  }
}
