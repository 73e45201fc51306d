/**
 What the scan reports, by the path it reported it under, and the lock its removal takes.

 Models `Root::reported` and `lock` of rust-lib/src/layout.rs.
 */
module Reports {
  import opened Base
  import opened Text
  import opened Layout
  import opened Tree
  import opened Scan
  import opened Coverage

  // ---- a report as a path --------------------------------------------------------------

  predicate ValidPath(path: Path) {
    path != [] && forall i :: 0 <= i < |path| ==> ValidName(path[i])
  }

  function Reported(rel: string): Option<Path> {
    var parts := Split(rel, '/');
    if forall i :: 0 <= i < |parts| ==> ValidName(parts[i]) then Some(parts) else None
  }

  /** `Root::reported`: component by component, refusing at the first it will not push. */
  method ResolveReported(rel: string) returns (p: Option<Path>)
    ensures p == Reported(rel)
  {
    var parts := Split(rel, '/');
    var pushed: Path := [];
    for i := 0 to |parts|
      invariant pushed == parts[..i]
      invariant forall k :: 0 <= k < i ==> ValidName(parts[k])
    {
      if parts[i] == "" || parts[i] == "." || parts[i] == ".." {
        return None;
      }
      if '/' in parts[i] {
        return None;
      }
      pushed := pushed + [parts[i]];
    }
    assert pushed == parts;
    return Some(pushed);
  }

  /**
   A reported string resolves to exactly the entry it names, and a string that resolves at
   all names a path of ordinary components, so it stays strictly under the root.
   */
  lemma ReportedExact(rel: string, path: Path)
    ensures Reported(rel) == Some(path) <==> ValidPath(path) && rel == RelStr(path)
  {
    if ValidPath(path) && rel == RelStr(path) {
      SplitJoin(path, '/');
    }
    JoinSplit(rel, '/');
  }

  // ---- the lock file -------------------------------------------------------------------

  /**
   Whether the lock file can be opened for reading and writing, or created; whether a peer
   holds it is another matter.
   */
  predicate LockAvailable(root: Node)
    requires root.Dir?
  {
    if LOCK !in root.entries then root.writable
    else
      match root.entries[LOCK]
      case File(_, readable, writable) => readable && writable
      case Link(_, Sees(_, readable, writable)) => readable && writable
      case Link(_, Elsewhere(opens)) => opens
      case Link(_, Dangling(creatable)) => creatable
      case Special(opens) => opens
      case Dir(_, _, _, _) => false
  }

  /** What opens for reading and writing: by its mode, where a link leads to by its own, and no directory. */
  predicate OpensBothWays(node: Node) {
    && (node.File? ==> node.readable && node.writable)
    && (node.Link? ==>
          && (node.sight.Sees? ==> node.sight.readable && node.sight.writable)
          && (node.sight.Elsewhere? ==> node.sight.opens) && (node.sight.Dangling? ==> node.sight.creatable))
    && (node.Special? ==> node.opens) && !node.Dir?
  }

  lemma LockAvailableExactly(root: Node)
    requires root.Dir?
    ensures LockAvailable(root) <==> if ".lock" in root.entries then OpensBothWays(root.entries[".lock"]) else root.writable
  {
  }

  const LOCK_FILE: Node := File(Foreign(0, true, false, false), true, true)

  /** Taking the lock creates its file where there is none. */
  function Locked(root: Node): Node
    requires root.Dir?
  {
    if LOCK in root.entries then root
    else root.(entries := root.entries[LOCK := LOCK_FILE], shown := root.shown + {LOCK})
  }

  lemma LockName()
    ensures ValidName(LOCK)
  {
    assert |LOCK| == 5;
  }

  lemma LockedValid(root: Node)
    requires root.Dir? && ValidTree(root)
    ensures ValidTree(Locked(root)) && Locked(root).complete == root.complete && Locked(root).writable == root.writable
  {
    LockName();
  }

  // ---- a report and its path -----------------------------------------------------------

  ghost predicate Sound(root: Node) {
    root.Dir? && ValidTree(root) && root.complete
  }

  predicate IsReported(path: Path, node: Node)
    requires path != []
  {
    var what := Classify(path, KindOf(node));
    what == Unexplained || what == DocStage || (node.Dir? && !node.complete)
  }

  /** An entry filed under its own text in one of the reported buckets. */
  lemma FiledIsReported(path: Path, node: Node, bucket: Bucket)
    requires path != [] && bucket in {PossibleKeys, UnexplainedPaths, DocStages}
    requires Filing(bucket, RelStr(path)) in Own(path, node)
    ensures IsReported(path, node)
  {
    var what := Classify(path, KindOf(node));
    if Filing(bucket, RelStr(path)) in FiledAs(path, what, SeenOf(path, node)) {
      BucketTellsEntry(path, what, SeenOf(path, node), bucket);
    }
  }

  lemma BucketTellsEntry(path: Path, what: Entry, seen: Seen, bucket: Bucket)
    requires path != [] && bucket in {PossibleKeys, UnexplainedPaths, DocStages}
    requires Filing(bucket, RelStr(path)) in FiledAs(path, what, seen)
    ensures what == Unexplained || what == DocStage
  {
  }

  /** The reported path, found again from its text. */
  lemma ReportedPath(root: Node, rel: string) returns (path: Path)
    requires Sound(root) && rel in UnexplainedAll(Scanned(Some(root)).value)
    ensures Reported(rel) == Some(path) && ValidPath(path)
    ensures Visited(root, path, 0) && Lookup(root, path).Some?
    ensures IsReported(path, Lookup(root, path).value)
  {
    var found := Scanned(Some(root)).value;
    var bucket := if rel in In(found, UnexplainedPaths) then UnexplainedPaths
                  else if rel in In(found, PossibleKeys) then PossibleKeys else DocStages;
    path := ReportHasAPath(root, rel, bucket);
    assert [] + path == path;
    FiledIsReported(path, Lookup(root, path).value, bucket);
    ReportedExact(rel, path);
  }

  lemma {:induction false} LookupLocked(root: Node, q: Path)
    requires root.Dir?
    ensures q != [] && q[0] != LOCK ==> Lookup(Locked(root), q) == Lookup(root, q)
    ensures Lookup(root, q).Some? && q != [] ==> Lookup(Locked(root), q) == Lookup(root, q)
  {
  }

  /** Whatever the walk gets to and has to report is reported under its own text. */
  lemma VisitedIsReported(root: Node, path: Path)
    requires Sound(root) && Visited(root, path, 0) && Lookup(root, path).Some?
    requires IsReported(path, Lookup(root, path).value)
    ensures RelStr(path) in UnexplainedAll(Scanned(Some(root)).value)
    ensures ValidPath(path) && Reported(RelStr(path)) == Some(path)
  {
    var node := Lookup(root, path).value;
    var bucket := OwnReport(path, node);
    assert [] + path == path;
    WalkFilesAllVisited(root, [], path, Filing(bucket, RelStr(path)));
    Member(Walk(root, []), Filing(bucket, RelStr(path)));
    PathNamesValid(root, path);
    ReportedExact(RelStr(path), path);
  }

  lemma OwnReport(path: Path, node: Node) returns (bucket: Bucket)
    requires path != [] && IsReported(path, node)
    ensures bucket in {PossibleKeys, UnexplainedPaths, DocStages}
    ensures Filing(bucket, RelStr(path)) in Own(path, node)
  {
    var what := Classify(path, KindOf(node));
    bucket := if what == DocStage then DocStages
              else if what == Unexplained && !CouldBeKey(path, SeenOf(path, node)) then UnexplainedPaths
              else PossibleKeys;
    if |path| >= MAX_DEPTH && node.Dir? {
      assert what == Unexplained;
    }
  }
}
