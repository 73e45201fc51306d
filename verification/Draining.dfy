/**
 Removing reports until there are none: which stores come to that, and which never do.

 Models runs of `remove_unexplained` of rust-lib/src/keystore.rs over one tree, each call ending
 in whatever the host leaves of it.
 */
module Draining {
  import opened Base
  import opened Text
  import opened Layout
  import opened Tree
  import opened Scan
  import opened Coverage
  import opened Reports
  import opened Removal

  // ---- what one call can do to a tree --------------------------------------------------

  /** Some entries are gone and some directories have been opened, and that is all. */
  ghost predicate Less(x: Node, y: Node) {
    y == x || (
      && x.Dir? && y.Dir? && y.entries.Keys <= x.entries.Keys
      && ((y.complete == x.complete && y.writable == x.writable) || (y.complete && y.writable))
      && forall n :: n in y.entries ==> Less(x.entries[n], y.entries[n]))
  }

  lemma {:induction false} LessLookup(x: Node, y: Node, q: Path)
    requires Less(x, y) && Lookup(y, q).Some?
    ensures Lookup(x, q).Some? && Less(Lookup(x, q).value, Lookup(y, q).value)
    decreases q
  {
    if y != x && q != [] {
      LessLookup(x.entries[q[0]], y.entries[q[0]], q[1..]);
    }
  }

  lemma {:induction false} KeptIsLess(x: Node, y: Node)
    requires Kept(x, y)
    ensures Less(x, y)
    decreases x
  {
    if y != x {
      forall n | n in y.entries ensures Less(x.entries[n], y.entries[n]) {
        KeptIsLess(x.entries[n], y.entries[n]);
      }
    }
  }

  lemma LeftIsLess(node: Node, left: Node)
    requires LeftOf(node, left)
    ensures Less(node, left)
  {
    if node.Dir? {
      forall n | n in left.entries ensures Less(node.entries[n], left.entries[n]) {
        KeptIsLess(node.entries[n], left.entries[n]);
      }
    }
  }

  lemma {:induction false} LeaveAtIsLess(node: Node, path: Path, left: Option<Node>)
    requires path != [] && Lookup(node, path).Some?
    requires left.Some? ==> Less(Lookup(node, path).value, left.value)
    ensures Less(node, LeaveAt(node, path, left))
    decreases path
  {
    if |path| > 1 {
      LeaveAtIsLess(node.entries[path[0]], path[1..], left);
    } else {
      assert path[1..] == [];
    }
  }

  lemma CallIsLess(root: Node, rel: string, left: Node)
    requires Sound(root) && Leaves(root, rel, left)
    ensures
      var after := RemoveReported(root, rel, true, left).0;
      after == root || Less(Locked(root), after)
  {
    var path := OneCall(root, rel, left);
    if IsListed(root, rel) && LockAvailable(root) {
      if Loose(root, path) && Clearable(Lookup(root, path).value) {
        LeaveAtIsLess(Locked(root), path, None);
      } else {
        LeftIsLess(Lookup(root, path).value, left);
        LeaveAtIsLess(Locked(root), path, Some(left));
      }
    }
  }

  // ---- how much there is to do ---------------------------------------------------------

  ghost function PathsIn(node: Node): set<Path>
    decreases node, 1
  {
    {[]} + (if node.Dir? then PathsBelow(node, node.entries.Keys) else {})
  }

  ghost function PathsBelow(node: Node, names: set<string>): set<Path>
    requires node.Dir?
    decreases node, 0
  {
    set n, p | n in names && n in node.entries && p in PathsIn(node.entries[n]) :: [n] + p
  }

  lemma {:induction false} PathsInExact(node: Node, p: Path)
    ensures p in PathsIn(node) <==> Lookup(node, p).Some?
    decreases p
  {
    if p != [] && node.Dir? {
      if p[0] in node.entries {
        PathsInExact(node.entries[p[0]], p[1..]);
        assert p == [p[0]] + p[1..];
      }
      if p in PathsIn(node) {
        assert p in PathsBelow(node, node.entries.Keys);
        var n, rest :| n in node.entries.Keys && n in node.entries && rest in PathsIn(node.entries[n]) && [n] + rest == p;
        assert p[0] == n && p[1..] == rest;
      }
    }
  }

  /** A directory that does not list, or does not let go of what it holds. */
  predicate Shut(node: Node) {
    node.Dir? && !(node.complete && node.writable)
  }

  predicate LockFileAt(root: Node, p: Path)
    requires root.Dir?
  {
    p == [LOCK] && LOCK in root.entries && root.entries[LOCK].File?
  }

  /** Everything there, except a lock file in its own place. */
  ghost function Rubble(root: Node): set<Path>
    requires root.Dir?
  {
    set p | p in PathsIn(root) && !LockFileAt(root, p)
  }

  ghost predicate ShutAt(root: Node, p: Path) {
    Lookup(root, p).Some? && Shut(Lookup(root, p).value)
  }

  ghost function ShutPaths(root: Node): set<Path>
    requires root.Dir?
  {
    set p | p in PathsIn(root) && ShutAt(root, p)
  }

  /** Entries to remove and directories to open. */
  ghost function Work(root: Node): nat
    requires root.Dir?
  {
    |Rubble(root)| + |ShutPaths(root)|
  }

  lemma RubbleExact(root: Node, p: Path)
    requires root.Dir?
    ensures p in Rubble(root) <==> Lookup(root, p).Some? && !LockFileAt(root, p)
    ensures p in ShutPaths(root) <==> ShutAt(root, p)
  {
    PathsInExact(root, p);
  }

  lemma {:induction false} CardinalityMonotone(a: set<Path>, b: set<Path>)
    requires a <= b
    ensures |a| <= |b|
    ensures a != b ==> |a| < |b|
  {
    if a != {} {
      var x :| x in a;
      CardinalityMonotone(a - {x}, b - {x});
      assert a - {x} == b - {x} ==> a == b;
    }
  }

  lemma LessWork(x: Node, y: Node)
    requires x.Dir? && y.Dir? && Less(x, y)
    ensures Rubble(y) <= Rubble(x) && ShutPaths(y) <= ShutPaths(x)
    ensures Work(y) <= Work(x)
    ensures Rubble(y) != Rubble(x) || ShutPaths(y) != ShutPaths(x) ==> Work(y) < Work(x)
  {
    forall p
      ensures p in Rubble(y) ==> p in Rubble(x)
      ensures p in ShutPaths(y) ==> p in ShutPaths(x)
    {
      RubbleExact(x, p);
      RubbleExact(y, p);
      if Lookup(y, p).Some? {
        LessLookup(x, y, p);
        assert p == [LOCK] ==> p[1..] == [];
      }
    }
    CardinalityMonotone(Rubble(y), Rubble(x));
    CardinalityMonotone(ShutPaths(y), ShutPaths(x));
  }

  lemma LockedWork(root: Node)
    requires Sound(root)
    ensures Work(Locked(root)) == Work(root)
  {
    forall p
      ensures p in Rubble(Locked(root)) <==> p in Rubble(root)
      ensures p in ShutPaths(Locked(root)) <==> p in ShutPaths(root)
    {
      RubbleExact(Locked(root), p);
      RubbleExact(root, p);
      LockedHas(root, p);
    }
    assert Rubble(Locked(root)) == Rubble(root) && ShutPaths(Locked(root)) == ShutPaths(root);
  }

  lemma LockedHas(root: Node, p: Path)
    requires Sound(root)
    ensures Lookup(root, p).Some? && p != [] ==> Lookup(Locked(root), p) == Lookup(root, p)
    ensures Lookup(root, p).None? && Lookup(Locked(root), p).Some? ==>
      p == [LOCK] && LOCK !in root.entries && Lookup(Locked(root), p) == Some(LOCK_FILE)
  {
    LookupLocked(root, p);
    if Lookup(root, p).None? && Lookup(Locked(root), p).Some? {
      assert p[0] == LOCK && Lookup(LOCK_FILE, p[1..]).Some?;
      assert p[1..] == [] && p == [p[0]] + p[1..];
    }
  }

  /** No call makes more work. */
  lemma CallsNeverAdd(root: Node, rel: string, left: Node)
    requires Sound(root) && Leaves(root, rel, left)
    ensures RemoveReported(root, rel, true, left).0.Dir?
    ensures Work(RemoveReported(root, rel, true, left).0) <= Work(root)
  {
    CallKeepsSound(root, rel, left);
    CallIsLess(root, rel, left);
    LockedWork(root);
    if RemoveReported(root, rel, true, left).0 != root {
      LessWork(Locked(root), RemoveReported(root, rel, true, left).0);
    }
  }

  /** A call makes some headway here, whatever it leaves: the entry goes, or a directory is opened. */
  ghost predicate Moves(root: Node, path: Path)
    requires path != [] && Lookup(root, path).Some?
  {
    Shut(Lookup(root, path).value) || (Loose(root, path) && Clearable(Lookup(root, path).value))
  }

  lemma MovesLessens(root: Node, rel: string, left: Node)
    requires Sound(root) && LockAvailable(root) && IsListed(root, rel) && Leaves(root, rel, left)
    requires Reported(rel).Some? && Reported(rel).value != [] && Lookup(root, Reported(rel).value).Some?
    requires Moves(root, Reported(rel).value)
    ensures RemoveReported(root, rel, true, left).0.Dir?
    ensures Work(RemoveReported(root, rel, true, left).0) < Work(root)
  {
    var path := OneCall(root, rel, left);
    var node := Lookup(root, path).value;
    var after := RemoveReported(root, rel, true, left).0;
    CallKeepsSound(root, rel, left);
    assert IsPrefix(path, path) && path[|path|..] == [];
    RubbleExact(Locked(root), path);
    RubbleExact(after, path);
    LockedWork(root);
    if Loose(root, path) && Clearable(node) {
      LeaveAtIsLess(Locked(root), path, None);
      LeaveAtLookup(Locked(root), path, None, path);
      ReportedIsRubble(root, path);
    } else {
      LeftIsLess(node, left);
      LeaveAtIsLess(Locked(root), path, Some(left));
      LeaveAtLookup(Locked(root), path, Some(left), path);
    }
    LessWork(Locked(root), after);
  }

  lemma ReportedIsRubble(root: Node, path: Path)
    requires Sound(root) && path != [] && Lookup(root, path).Some? && Lookup(Locked(root), path) == Lookup(root, path)
    requires IsReported(path, Lookup(root, path).value)
    ensures path in Rubble(Locked(root))
  {
    RubbleExact(Locked(root), path);
    if path == [LOCK] {
      assert path[1..] == [];
      ClassifyInvertsRel(path, IsFile, LockEntry);
    }
  }

  // ---- what stands in the way ----------------------------------------------------------

  /** A directory a removal that comes from above gets past, if it gets past what is inside. */
  predicate Passes(node: Node) {
    node.Dir? ==> node.complete && (node.entries == map[] || node.writable)
  }

  /** Too far down for the walk to name it, so that nothing opens it. */
  ghost predicate TooDeep(root: Node, q: Path) {
    |q| > MAX_DEPTH && Lookup(root, q).Some? && !Passes(Lookup(root, q).value)
  }

  predicate MustGo(path: Path, kind: Kind)
    requires path != []
  {
    Classify(path, kind) == Unexplained || Classify(path, kind) == DocStage
  }

  /** A directory that is not itself reported, so that nothing opens it, and holds what must go. */
  ghost predicate HeldFast(root: Node, q: Path, n: string) {
    && Lookup(root, q).Some? && Lookup(root, q).value.Dir?
    && Lookup(root, q).value.complete && !Lookup(root, q).value.writable
    && (q != [] ==> Classify(q, IsDir) != Unexplained)
    && Lookup(root, q + [n]).Some? && MustGo(q + [n], KindOf(Lookup(root, q + [n]).value))
  }

  ghost predicate Unobstructed(root: Node) {
    (forall q :: !TooDeep(root, q)) && (forall q, n :: !HeldFast(root, q, n))
  }

  lemma {:induction false} LookupChild(node: Node, q: Path, n: string)
    ensures Lookup(node, q + [n]) ==
      if Lookup(node, q).Some? && Lookup(node, q).value.Dir? && n in Lookup(node, q).value.entries
      then Some(Lookup(node, q).value.entries[n]) else None
    decreases q
  {
    if q == [] {
      assert q + [n] == [n] && [n][1..] == [];
    } else {
      assert (q + [n])[1..] == q[1..] + [n];
      if node.Dir? && q[0] in node.entries {
        LookupChild(node.entries[q[0]], q[1..], n);
      }
    }
  }

  /** Nothing comes to be in the way. */
  lemma LessStaysUnobstructed(x: Node, y: Node)
    requires Less(x, y) && Unobstructed(x)
    ensures Unobstructed(y)
  {
    forall q ensures !TooDeep(y, q) {
      if TooDeep(y, q) {
        LessLookup(x, y, q);
        assert TooDeep(x, q);
      }
    }
    forall q, n ensures !HeldFast(y, q, n) {
      if HeldFast(y, q, n) {
        LessLookup(x, y, q);
        LessLookup(x, y, q + [n]);
        assert HeldFast(x, q, n);
      }
    }
  }

  lemma LockIsExplained()
    ensures !MustGo([LOCK], IsFile)
  {
    ClassifyInvertsRel([LOCK], IsFile, LockEntry);
  }

  lemma LockedStaysUnobstructed(root: Node)
    requires Sound(root) && Unobstructed(root)
    ensures Unobstructed(Locked(root))
  {
    LockIsExplained();
    forall q ensures !TooDeep(Locked(root), q) {
      LockedHas(root, q);
      assert !TooDeep(root, q);
    }
    forall q, n ensures !HeldFast(Locked(root), q, n) {
      LockedHas(root, q);
      LockedHas(root, q + [n]);
      assert !HeldFast(root, q, n);
    }
  }

  /** What does not pass stays, and keeps what it directly holds. */
  lemma {:induction false} KeptBlocked(x: Node, y: Node, q: Path)
    requires Kept(x, y) && Lookup(x, q).Some? && !Passes(Lookup(x, q).value)
    ensures !Yields(x)
    ensures Lookup(y, q).Some? && Kept(Lookup(x, q).value, Lookup(y, q).value)
    decreases q
  {
    if q != [] {
      var n := q[0];
      if n in y.entries {
        if x == y {
          KeptBlocked(x.entries[n], x.entries[n], q[1..]);
        } else {
          KeptBlocked(x.entries[n], y.entries[n], q[1..]);
        }
      } else {
        KeptBlocked(x.entries[n], x.entries[n], q[1..]);
      }
    }
  }

  lemma LeftBlocked(node: Node, left: Node, q: Path)
    requires LeftOf(node, left) && q != [] && Lookup(node, q).Some? && !Passes(Lookup(node, q).value)
    ensures !Clearable(node)
    ensures Lookup(left, q).Some? && Kept(Lookup(node, q).value, Lookup(left, q).value)
  {
    var n := q[0];
    KeptBlocked(node.entries[n], node.entries[n], q[1..]);
    KeptBlocked(node.entries[n], left.entries[n], q[1..]);
  }

  /** Something that does not pass, strictly below what a call names, is there after it too. */
  lemma BlockedBelow(root: Node, rel: string, left: Node, q: Path)
    requires Sound(root) && LockAvailable(root) && IsListed(root, rel) && Leaves(root, rel, left)
    requires Lookup(root, q).Some? && !Passes(Lookup(root, q).value)
    requires Reported(rel).Some? && IsPrefix(Reported(rel).value, q) && q != Reported(rel).value
    ensures
      var now := Lookup(RemoveReported(root, rel, true, left).0, q);
      now.Some? && Kept(Lookup(root, q).value, now.value)
  {
    var path := OneCall(root, rel, left);
    var rest := q[|path|..];
    assert q == path + rest && rest != [];
    LookupThrough(root, q, |path|);
    var some := SomethingIsLeft(Lookup(root, path).value);
    LeftBlocked(Lookup(root, path).value, some, rest);
    LeftBlocked(Lookup(root, path).value, left, rest);
    LeaveAtLookup(Locked(root), path, Some(left), q);
  }

  /** No call removes what is in the way, whatever it leaves. */
  lemma TooDeepStays(root: Node, rel: string, left: Node, q: Path)
    requires Sound(root) && LockAvailable(root) && IsListed(root, rel) && Leaves(root, rel, left) && TooDeep(root, q)
    ensures TooDeep(RemoveReported(root, rel, true, left).0, q)
  {
    var path := OneCall(root, rel, left);
    VisitedIsThere(root, path, 0);
    if IsPrefix(path, q) {
      BlockedBelow(root, rel, left, q);
    } else {
      LookupLocked(root, q);
      LeaveAtLookup(Locked(root), path, Some(left), q);
      LeaveAtLookup(Locked(root), path, None, q);
    }
  }

  lemma HeldFastStays(root: Node, rel: string, left: Node, q: Path, n: string)
    requires Sound(root) && LockAvailable(root) && IsListed(root, rel) && Leaves(root, rel, left) && HeldFast(root, q, n)
    ensures HeldFast(RemoveReported(root, rel, true, left).0, q, n)
  {
    var path := ReportedPath(root, rel);
    if IsPrefix(q, path) {
      assert path != q;
      HeldAbove(root, rel, left, q, n);
    } else if IsPrefix(path, q) {
      HeldBelow(root, rel, left, q, n);
    } else {
      HeldBeside(root, rel, left, q);
      HeldThere(root, RemoveReported(root, rel, true, left).0, q, n);
    }
  }

  /** The directory that holds it is under what a call names. */
  lemma HeldBelow(root: Node, rel: string, left: Node, q: Path, n: string)
    requires Sound(root) && LockAvailable(root) && IsListed(root, rel) && Leaves(root, rel, left) && HeldFast(root, q, n)
    requires Reported(rel).Some? && IsPrefix(Reported(rel).value, q) && q != Reported(rel).value
    ensures HeldFast(RemoveReported(root, rel, true, left).0, q, n)
  {
    LookupChild(root, q, n);
    BlockedBelow(root, rel, left, q);
    HeldThere(root, RemoveReported(root, rel, true, left).0, q, n);
  }

  lemma HeldThere(root: Node, after: Node, q: Path, n: string)
    requires HeldFast(root, q, n) && Lookup(after, q).Some? && Kept(Lookup(root, q).value, Lookup(after, q).value)
    ensures HeldFast(after, q, n)
  {
    LookupChild(root, q, n);
    LookupChild(after, q, n);
  }

  lemma HeldBeside(root: Node, rel: string, left: Node, q: Path)
    requires Sound(root) && LockAvailable(root) && IsListed(root, rel) && Leaves(root, rel, left)
    requires Lookup(root, q).Some? && q != [] && Reported(rel).Some?
    requires !IsPrefix(Reported(rel).value, q) && !IsPrefix(q, Reported(rel).value)
    ensures Lookup(RemoveReported(root, rel, true, left).0, q) == Lookup(root, q)
  {
    var path := OneCall(root, rel, left);
    LookupLocked(root, q);
    LeaveAtLookup(Locked(root), path, Some(left), q);
    LeaveAtLookup(Locked(root), path, None, q);
  }

  /** The directory that holds it is on the way to what a call names. */
  lemma HeldAbove(root: Node, rel: string, left: Node, q: Path, n: string)
    requires Sound(root) && LockAvailable(root) && IsListed(root, rel) && Leaves(root, rel, left) && HeldFast(root, q, n)
    requires Reported(rel).Some? && IsPrefix(q, Reported(rel).value) && q != Reported(rel).value
    ensures HeldFast(RemoveReported(root, rel, true, left).0, q, n)
  {
    var path := OneCall(root, rel, left);
    LockedHas(root, q + [n]);
    if path == q + [n] {
      HeldItself(root, path, left, q, n);
    } else if IsPrefix(q + [n], path) {
      assert path[|q|] == (q + [n])[|q|];
      HeldOnTheWay(root, path, Some(left), q, n);
      HeldOnTheWay(root, path, None, q, n);
    } else {
      assert !IsPrefix(path, q + [n]);
      HeldBeside(root, rel, left, q + [n]);
      LockedHas(root, q);
      LeaveAtAbove(Locked(root), path, Some(left), q);
      LeaveAtAbove(Locked(root), path, None, q);
    }
  }

  lemma HeldItself(root: Node, path: Path, left: Node, q: Path, n: string)
    requires Sound(root) && HeldFast(root, q, n) && path == q + [n]
    requires Lookup(Locked(root), path) == Lookup(root, path) && LeftOf(Lookup(root, path).value, left)
    ensures !Loose(root, path)
    ensures HeldFast(LeaveAt(Locked(root), path, Some(left)), q, n)
  {
    assert path[..|path| - 1] == q;
    LockedHas(root, q);
    LeaveAtAbove(Locked(root), path, Some(left), q);
    LeaveAtLookup(Locked(root), path, Some(left), path);
    assert IsPrefix(path, path) && path[|path|..] == [];
  }

  lemma HeldOnTheWay(root: Node, path: Path, left: Option<Node>, q: Path, n: string)
    requires Sound(root) && path != [] && Lookup(Locked(root), path).Some?
    requires HeldFast(root, q, n) && IsPrefix(q + [n], path) && path != q + [n] && q + [n] != [LOCK]
    ensures HeldFast(LeaveAt(Locked(root), path, left), q, n)
  {
    assert q == (q + [n])[..|q|] == path[..|q|];
    LockedHas(root, q);
    LockedHas(root, q + [n]);
    LeaveAtAbove(Locked(root), path, left, q);
    LeaveAtAbove(Locked(root), path, left, q + [n]);
  }

  /** A call decides nothing about whether a store can be cleaned. */
  lemma CallsDecideNothing(root: Node, rel: string, left: Node)
    requires Sound(root) && Leaves(root, rel, left)
    ensures Unobstructed(RemoveReported(root, rel, true, left).0) <==> Unobstructed(root)
  {
    var after := RemoveReported(root, rel, true, left).0;
    var path := OneCall(root, rel, left);
    if IsListed(root, rel) && LockAvailable(root) {
      if Unobstructed(root) {
        LockedStaysUnobstructed(root);
        CallIsLess(root, rel, left);
        LessStaysUnobstructed(Locked(root), after);
      } else if q :| TooDeep(root, q) {
        TooDeepStays(root, rel, left, q);
      } else {
        var q, n :| HeldFast(root, q, n);
        HeldFastStays(root, rel, left, q, n);
      }
    }
  }

  // ---- a store nothing is reported of --------------------------------------------------

  ghost predicate Clean(root: Node)
    requires Sound(root)
  {
    UnexplainedAll(Scanned(Some(root)).value) == {}
  }

  /** While something is in the way, something is reported. */
  lemma ObstructionsShow(root: Node)
    requires Sound(root) && !Unobstructed(root)
    ensures !Clean(root)
  {
    if q :| TooDeep(root, q) {
      NothingIsInvisible(root, q);
      assert Classify(q, KindOf(Lookup(root, q).value)) == Unexplained;
    } else {
      var q, n :| HeldFast(root, q, n);
      NothingIsInvisible(root, q + [n]);
    }
  }

  /** Reported, in so many words. */
  ghost predicate Shows(root: Node, path: Path)
    requires root.Dir?
  {
    path != [] && Visited(root, path, 0) && Lookup(root, path).Some? && IsReported(path, Lookup(root, path).value)
  }

  /** Where nothing is in the way, some report can be acted on. */
  lemma SomethingMoves(root: Node) returns (path: Path)
    requires Sound(root) && Unobstructed(root) && !Clean(root)
    ensures Shows(root, path) && Moves(root, path)
  {
    var rel :| rel in UnexplainedAll(Scanned(Some(root)).value);
    var first := ReportedPath(root, rel);
    path := Furthest(root, first);
    if !Moves(root, path) {
      FurthestIsClearable(root, path);
      path := HolderMoves(root, path);
    }
  }

  lemma Furthest(root: Node, path: Path) returns (last: Path)
    requires root.Dir? && Shows(root, path)
    ensures Shows(root, last)
    ensures forall p :: Shows(root, p) ==> |p| <= |last|
    decreases MAX_DEPTH - |path|
  {
    last := path;
    if p :| Shows(root, p) && |p| > |path| {
      VisitedIsThere(root, p, 0);
      last := Furthest(root, p);
    }
  }

  lemma DeepYields(root: Node, q: Path)
    requires Unobstructed(root) && |q| > MAX_DEPTH && Lookup(root, q).Some?
    ensures Yields(Lookup(root, q).value)
    decreases Lookup(root, q).value
  {
    var node := Lookup(root, q).value;
    assert !TooDeep(root, q);
    if node.Dir? {
      forall n | n in node.entries ensures Yields(node.entries[n]) {
        LookupChild(root, q, n);
        DeepYields(root, q + [n]);
      }
    }
  }

  lemma {:induction false} VisitedChild(dir: Node, path: Path, depth: nat, n: string)
    requires dir.Dir? && Visited(dir, path, depth) && Lookup(dir, path).Some?
    requires Lookup(dir, path).value.Dir? && n in Lookup(dir, path).value.shown && n in Lookup(dir, path).value.entries
    requires depth + |path| < MAX_DEPTH
    ensures Visited(dir, path + [n], depth)
    decreases path
  {
    if |path| == 1 {
      assert path[1..] == [] && (path + [n])[1..] == [n];
    } else {
      assert (path + [n])[1..] == path[1..] + [n];
      VisitedChild(dir.entries[path[0]], path[1..], depth + 1, n);
    }
  }

  lemma {:induction false} VisitedAbove(dir: Node, path: Path, depth: nat, k: nat)
    requires dir.Dir? && Visited(dir, path, depth) && 0 < k <= |path|
    ensures Visited(dir, path[..k], depth)
    decreases path
  {
    if k > 1 {
      assert path[..k][1..] == path[1..][..k - 1];
      VisitedAbove(dir.entries[path[0]], path[1..], depth + 1, k - 1);
    }
  }

  /** What a report holds is reported too, down to where the walk ends, and from there on yields. */
  lemma FurthestIsClearable(root: Node, path: Path)
    requires Sound(root) && Unobstructed(root) && Shows(root, path) && !Shut(Lookup(root, path).value)
    requires forall p :: Shows(root, p) ==> |p| <= |path|
    ensures Clearable(Lookup(root, path).value)
  {
    var node := Lookup(root, path).value;
    VisitedIsThere(root, path, 0);
    PathNamesValid(root, path);
    if node.Dir? {
      forall n | n in node.entries ensures Yields(node.entries[n]) {
        LookupChild(root, path, n);
        if |path| == MAX_DEPTH {
          DeepYields(root, path + [n]);
        } else {
          VisitedChild(root, path, 0, n);
          UnexplainedAllTheWayDown(path, [n], KindOf(node.entries[n]));
          assert Shows(root, path + [n]);
        }
      }
    }
  }

  /** If it is only held by a directory that cannot be written, that one is reported and can be opened. */
  lemma HolderMoves(root: Node, path: Path) returns (above: Path)
    requires Sound(root) && Unobstructed(root) && Shows(root, path) && !Moves(root, path)
    requires Clearable(Lookup(root, path).value)
    ensures Shows(root, above) && Moves(root, above)
  {
    above := path[..|path| - 1];
    var n := path[|path| - 1];
    assert path == above + [n];
    LookupThrough(root, path, |path| - 1);
    var holder := Lookup(root, above).value;
    assert !HeldFast(root, above, n);
    assert MustGo(path, KindOf(Lookup(root, path).value));
    if above != [] {
      VisitedAbove(root, path, 0, |path| - 1);
    }
  }

  // ---- runs ----------------------------------------------------------------------------

  /** An acknowledged call, and what it leaves of what it names where it is refused. */
  datatype Call = Call(rel: string, left: Node)

  /** What a run of calls comes to, if each can leave what it says it does. */
  ghost function After(root: Node, calls: seq<Call>): (last: Option<Node>)
    requires root.Dir?
    ensures last.Some? ==> last.value.Dir?
    decreases calls
  {
    if calls == [] then Some(root)
    else if !Leaves(root, calls[0].rel, calls[0].left) then None
    else
      var after := RemoveReported(root, calls[0].rel, true, calls[0].left).0;
      if !after.Dir? then None else After(after, calls[1..])
  }

  /** How many of them made headway. */
  ghost function Headway(root: Node, calls: seq<Call>): nat
    requires root.Dir? && After(root, calls).Some?
    decreases calls
  {
    if calls == [] then 0
    else
      var after := RemoveReported(root, calls[0].rel, true, calls[0].left).0;
      (if Work(after) < Work(root) then 1 else 0) + Headway(after, calls[1..])
  }

  lemma SameVaultsOn(a: Node, b: Node, c: Node)
    requires a.Dir? && b.Dir? && c.Dir? && SameVaults(a, b) && SameVaults(b, c)
    ensures SameVaults(a, c)
  {
    forall addr | IsAddr(addr) ensures SameVault(a, c, VaultFile(addr)) {
      assert SameVault(a, b, VaultFile(addr)) && SameVault(b, c, VaultFile(addr));
    }
  }

  /**
   Whatever is called in whatever order: no more calls make headway than there are entries to
   remove and directories to open, no account vault is touched, and whether the store can be
   cleaned stays as it was.
   */
  lemma {:induction false} RemovalsAreBounded(root: Node, calls: seq<Call>)
    requires Sound(root) && After(root, calls).Some?
    ensures Sound(After(root, calls).value)
    ensures LockAvailable(root) ==> LockAvailable(After(root, calls).value)
    ensures Headway(root, calls) + Work(After(root, calls).value) <= Work(root)
    ensures SameVaults(root, After(root, calls).value)
    ensures Unobstructed(After(root, calls).value) <==> Unobstructed(root)
    decreases calls
  {
    if calls != [] {
      var rel, left := calls[0].rel, calls[0].left;
      var after := RemoveReported(root, rel, true, left).0;
      CallKeepsSound(root, rel, left);
      CallsNeverAdd(root, rel, left);
      RemovalSparesVaults(root, rel, left);
      CallsDecideNothing(root, rel, left);
      RemovalsAreBounded(after, calls[1..]);
      SameVaultsOn(root, after, After(after, calls[1..]).value);
    }
  }

  /** Every report there is can be called for without any headway. */
  ghost predicate Stuck(root: Node)
    requires Sound(root)
  {
    forall rel :: IsListed(root, rel) ==> exists left :: NoHeadway(root, rel, left)
  }

  ghost predicate NoHeadway(root: Node, rel: string, left: Node)
    requires root.Dir?
  {
    && Leaves(root, rel, left)
    && RemoveReported(root, rel, true, left).0.Dir?
    && Work(RemoveReported(root, rel, true, left).0) >= Work(root)
  }

  /** While a store can be cleaned and is not, there is a report whose call makes headway, whatever it leaves. */
  lemma HeadwayIsThere(root: Node) returns (rel: string)
    requires Sound(root) && LockAvailable(root) && Unobstructed(root) && !Clean(root)
    ensures IsListed(root, rel) && forall left :: !NoHeadway(root, rel, left)
  {
    var path := SomethingMoves(root);
    rel := RelStr(path);
    VisitedIsReported(root, path);
    forall left ensures !NoHeadway(root, rel, left) {
      if NoHeadway(root, rel, left) {
        MovesLessens(root, rel, left);
      }
    }
  }

  /** Calling for reports until it gets nowhere ends with none exactly where nothing is in the way. */
  lemma DrainingEndsClean(root: Node, calls: seq<Call>)
    requires Sound(root) && LockAvailable(root) && After(root, calls).Some?
    requires Sound(After(root, calls).value) && Stuck(After(root, calls).value)
    ensures Clean(After(root, calls).value) <==> Unobstructed(root)
  {
    RemovalsAreBounded(root, calls);
    var last := After(root, calls).value;
    if !Unobstructed(last) {
      ObstructionsShow(last);
    } else if !Clean(last) {
      var rel := HeadwayIsThere(last);
    }
  }

  /** A store can be rid of everything reported exactly where nothing is in the way. */
  lemma DrainableExactly(root: Node)
    requires Sound(root) && LockAvailable(root)
    ensures Unobstructed(root) <==> exists calls :: EndsClean(root, calls)
  {
    if Unobstructed(root) {
      var calls := Drain(root);
    }
    if calls :| EndsClean(root, calls) {
      RemovalsAreBounded(root, calls);
      if !Unobstructed(root) {
        ObstructionsShow(After(root, calls).value);
      }
    }
  }

  ghost predicate EndsClean(root: Node, calls: seq<Call>)
    requires root.Dir?
  {
    After(root, calls).Some? && Sound(After(root, calls).value) && Clean(After(root, calls).value)
  }

  lemma Drain(root: Node) returns (calls: seq<Call>)
    requires Sound(root) && LockAvailable(root) && Unobstructed(root)
    ensures EndsClean(root, calls)
    decreases Work(root)
  {
    calls := [];
    if !Clean(root) {
      var rel := HeadwayIsThere(root);
      var path := ReportedPath(root, rel);
      LookupLocked(root, path);
      var left := SomethingIsLeft(Lookup(root, path).value);
      assert !NoHeadway(root, rel, left);
      CallKeepsSound(root, rel, left);
      CallsDecideNothing(root, rel, left);
      var rest := Drain(RemoveReported(root, rel, true, left).0);
      calls := [Call(rel, left)] + rest;
      assert calls[1..] == rest;
    }
  }

  // ---- two that are never clean --------------------------------------------------------

  /** One directory in the next, and this at the bottom. */
  function Nested(names: Path, node: Node): Node {
    if names == [] then node else Holding(names[0], Nested(names[1..], node), true)
  }

  lemma {:induction false} NestedLookup(names: Path, node: Node)
    requires forall i :: 0 <= i < |names| ==> ValidName(names[i])
    requires ValidTree(node)
    ensures ValidTree(Nested(names, node)) && Lookup(Nested(names, node), names) == Some(node)
  {
    if names != [] {
      NestedLookup(names[1..], node);
    }
  }

  /**
   Four levels down or more, a directory nobody may open: the walk names three directories
   above it, and no calls for those, in any order, leave the store with nothing reported.
   */
  lemma ADeepOneStays(names: Path, calls: seq<Call>)
    requires |names| > MAX_DEPTH && ValidPath(names) && names[0] != LOCK
    ensures
      var root := Nested(names, Dir(map[], {}, false, true));
      Sound(root) && LockAvailable(root) && !EndsClean(root, calls)
  {
    var shut := Dir(map[], {}, false, true);
    assert ValidTree(shut);
    NestedLookup(names, shut);
    var root := Nested(names, shut);
    assert TooDeep(root, names);
    DrainableExactly(root);
  }

  /** The directory of keys, closed to changes, with a link in it: the link stays and is reported. */
  lemma AHeldOneStays(link: Node, calls: seq<Call>)
    requires link.Link?
    ensures
      var root := Holding(GROUPS, Holding("x", link, false), true);
      Sound(root) && LockAvailable(root) && !EndsClean(root, calls)
  {
    var groups := Holding("x", link, false);
    var root := Holding(GROUPS, groups, true);
    assert |GROUPS| == 6 && |LOCK| == 5;
    assert ValidTree(groups);
    assert ValidTree(root);
    LookupChild(root, [], GROUPS);
    LookupChild(root, [GROUPS], "x");
    assert [] + [GROUPS] == [GROUPS];
    ClassifyInvertsRel([GROUPS], IsDir, GroupDirEntry);
    assert MustGo([GROUPS] + ["x"], IsLink);
    assert HeldFast(root, [GROUPS], "x");
    DrainableExactly(root);
  }
}
