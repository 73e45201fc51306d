/**
 What a scan's answer says about the tree, entry by entry.

 The walk is characterised path by path, and from that: nothing under the root is invisible,
 nothing is reported that is not there, and every reported path has one severity.
 */
module Coverage {
  import opened Base
  import opened Text
  import opened Layout
  import opened Tree
  import opened Scan

  // ---- the walk, path by path ----------------------------------------------------------

  /** The walk gets to this path: delivered at every level, and never below the depth limit. */
  predicate Visited(dir: Node, path: Path, depth: nat)
    requires dir.Dir?
    decreases path
  {
    && path != []
    && path[0] in dir.shown
    && path[0] in dir.entries
    && (|path| > 1 ==>
          && dir.entries[path[0]].Dir?
          && depth + 1 < MAX_DEPTH
          && Visited(dir.entries[path[0]], path[1..], depth + 1))
  }

  lemma {:induction false} VisitedIsThere(dir: Node, path: Path, depth: nat)
    requires dir.Dir? && Visited(dir, path, depth)
    ensures Lookup(dir, path).Some?
    ensures depth < MAX_DEPTH ==> depth + |path| <= MAX_DEPTH
  {
    if |path| > 1 {
      VisitedIsThere(dir.entries[path[0]], path[1..], depth + 1);
    } else {
      assert path[1..] == [];
    }
  }

  ghost predicate FiledBy(dir: Node, rel: Path, path: Path, f: Filing)
    requires dir.Dir?
  {
    && Visited(dir, path, |rel|)
    && Lookup(dir, path).Some?
    && f in Own(rel + path, Lookup(dir, path).value)
  }

  lemma {:induction false} WalkFilesOnlyVisited(dir: Node, rel: Path, f: Filing) returns (path: Path)
    requires dir.Dir? && f in Walk(dir, rel)
    ensures FiledBy(dir, rel, path, f)
    decreases dir
  {
    var n :| n in dir.shown && n in dir.entries && f in At(dir.entries[n], rel + [n]);
    var child := dir.entries[n];
    if f in Own(rel + [n], child) {
      path := [n];
      assert path[1..] == [];
    } else {
      var below := WalkFilesOnlyVisited(child, rel + [n], f);
      path := [n] + below;
      assert path[1..] == below;
      assert rel + path == rel + [n] + below;
    }
  }

  lemma {:induction false} WalkFilesAllVisited(dir: Node, rel: Path, path: Path, f: Filing)
    requires dir.Dir? && FiledBy(dir, rel, path, f)
    ensures f in Walk(dir, rel)
    decreases path
  {
    var child := dir.entries[path[0]];
    var here := rel + [path[0]];
    assert |here| == |rel| + 1;
    if |path| == 1 {
      assert path[1..] == [] && Lookup(dir, path) == Some(child);
      assert rel + path == here;
      assert f in Own(here, child);
    } else {
      assert rel + path == here + path[1..];
      WalkFilesAllVisited(child, here, path[1..], f);
      assert f in Walk(child, here);
    }
    assert f in At(child, here);
  }

  /** The walk files exactly what its visited entries file for themselves. */
  lemma WalkExact(dir: Node, f: Filing)
    requires dir.Dir?
    ensures f in Walk(dir, []) <==> exists path :: FiledBy(dir, [], path, f)
  {
    if f in Walk(dir, []) {
      var path := WalkFilesOnlyVisited(dir, [], f);
    }
    if exists path :: FiledBy(dir, [], path, f) {
      var path :| FiledBy(dir, [], path, f);
      WalkFilesAllVisited(dir, [], path, f);
    }
  }

  // ---- nothing is invisible ------------------------------------------------------------

  /** Reported by path: what a reader is shown, and may name to remove. */
  function UnexplainedAll(found: Found): set<string> {
    In(found, UnexplainedPaths) + In(found, PossibleKeys) + In(found, DocStages)
  }

  /** Filed in the bucket of its own slot, or a container or document that explains itself. */
  predicate Explained(found: Found, rel: Path, kind: Kind) {
    match Classify(rel, kind)
    case VaultEntry(a) => a in In(found, Vaults)
    case StagedVault(a) => a in In(found, StagedVaults)
    case VaultStage(a) => a in In(found, VaultStages)
    case ImportStage(n) => n in In(found, ImportStages)
    case GroupKeyEntry(id) => id in In(found, Keys)
    case StagedGroupKey(id) => id in In(found, Staged)
    case DocEntry(_) => true
    case LockEntry => true
    case GroupDirEntry => true
    case GroupStage(_) => true
    case ImportScratch(_) => true
    case DocStage => false
    case Unexplained => false
  }

  /** Itself or a directory above it is reported by path. */
  ghost predicate ReportedAbove(found: Found, rel: Path) {
    exists k :: 0 < k <= |rel| && RelStr(rel[..k]) in UnexplainedAll(found)
  }

  ghost predicate Covered(found: Found, rel: Path, kind: Kind) {
    Explained(found, rel, kind) || ReportedAbove(found, rel)
  }

  lemma Member(found: Found, f: Filing)
    requires f in found
    ensures f.text in In(found, f.bucket)
  {
  }

  lemma OwnCovers(found: Found, rel: Path, node: Node)
    requires rel != [] && Own(rel, node) <= found
    ensures Covered(found, rel, KindOf(node))
    ensures node.Dir? && (|rel| >= MAX_DEPTH || !node.complete) ==> RelStr(rel) in In(found, PossibleKeys)
  {
    var what := Classify(rel, KindOf(node));
    var filed := FiledAs(rel, what, SeenOf(rel, node));
    assert filed <= Own(rel, node);
    forall f | f in filed ensures f.text in In(found, f.bucket) {
      Member(found, f);
    }
    assert rel[..|rel|] == rel;
    if what == DocStage || what == Unexplained {
      assert RelStr(rel) in UnexplainedAll(found);
    }
    if node.Dir? && |rel| >= MAX_DEPTH {
      assert what == Unexplained;
    }
    if node.Dir? && !node.complete && |rel| < MAX_DEPTH && what != Unexplained {
      Member(found, Filing(PossibleKeys, RelStr(rel)));
    }
  }

  lemma CoveredAbove(found: Found, rel: Path, path: Path, kind: Kind)
    requires rel != [] && RelStr(rel) in In(found, PossibleKeys)
    ensures Covered(found, rel + path, kind)
  {
    assert (rel + path)[..|rel|] == rel;
  }

  lemma WalkHasEntry(dir: Node, rel: Path, n: string)
    requires dir.Dir? && n in dir.shown && n in dir.entries
    ensures At(dir.entries[n], rel + [n]) <= Walk(dir, rel)
    ensures Own(rel + [n], dir.entries[n]) <= Walk(dir, rel)
    ensures dir.entries[n].Dir? && |rel| + 1 < MAX_DEPTH ==> Walk(dir.entries[n], rel + [n]) <= Walk(dir, rel)
  {
  }

  lemma {:induction false} WalkCovers(dir: Node, rel: Path, path: Path, found: Found)
    requires dir.Dir? && ValidTree(dir) && |rel| < MAX_DEPTH
    requires Walk(dir, rel) <= found
    requires dir.complete || (rel != [] && RelStr(rel) in In(found, PossibleKeys))
    requires path != [] && Lookup(dir, path).Some?
    ensures Covered(found, rel + path, KindOf(Lookup(dir, path).value))
    decreases path
  {
    var n := path[0];
    var child := dir.entries[n];
    if n !in dir.shown {
      CoveredAbove(found, rel, path, KindOf(Lookup(dir, path).value));
    } else {
      WalkHasEntry(dir, rel, n);
      var here := rel + [n];
      OwnCovers(found, here, child);
      assert |here| == |rel| + 1;
      assert rel + path == here + path[1..];
      if |path| == 1 {
        assert path[1..] == [] && Lookup(dir, path) == Some(child);
        assert rel + path == here;
      } else if |rel| + 1 >= MAX_DEPTH {
        CoveredAbove(found, here, path[1..], KindOf(Lookup(dir, path).value));
      } else {
        WalkCovers(child, here, path[1..], found);
      }
    }
  }

  /**
   Whatever is on disk, at any depth and of any kind: if the scan answers, the entry is filed
   under its slot, explains itself, or is reported by its own path or one above it.
   */
  lemma NothingIsInvisible(root: Node, path: Path)
    requires ValidTree(root) && Scanned(Some(root)).Ok?
    requires path != [] && Lookup(root, path).Some?
    ensures Covered(Scanned(Some(root)).value, path, KindOf(Lookup(root, path).value))
  {
    WalkCovers(root, [], path, Walk(root, []));
    assert [] + path == path;
  }

  // ---- what a report means -------------------------------------------------------------

  lemma {:induction false} PathNamesValid(node: Node, path: Path)
    requires ValidTree(node) && Lookup(node, path).Some?
    ensures forall i :: 0 <= i < |path| ==> ValidName(path[i])
    ensures ValidTree(Lookup(node, path).value)
    decreases path
  {
    if path != [] {
      PathNamesValid(node.entries[path[0]], path[1..]);
      forall i | 0 <= i < |path| ensures ValidName(path[i]) {
        if i > 0 {
          assert path[i] == path[1..][i - 1];
        }
      }
    }
  }

  lemma RelStrInjective(a: Path, b: Path)
    requires a != [] && b != []
    requires forall i :: 0 <= i < |a| ==> ValidName(a[i])
    requires forall i :: 0 <= i < |b| ==> ValidName(b[i])
    requires RelStr(a) == RelStr(b)
    ensures a == b
  {
    SplitJoin(a, '/');
    SplitJoin(b, '/');
  }

  /** The path behind one report: visited, and classified as something reported. */
  ghost predicate Behind(root: Node, path: Path, text: string, bucket: Bucket)
    requires root.Dir?
  {
    && FiledBy(root, [], path, Filing(bucket, text))
    && path != [] && text == RelStr(path)
  }

  lemma ReportHasAPath(root: Node, text: string, bucket: Bucket) returns (path: Path)
    requires ValidTree(root) && Scanned(Some(root)).Ok?
    requires bucket in {PossibleKeys, UnexplainedPaths, DocStages}
    requires text in In(Scanned(Some(root)).value, bucket)
    ensures Behind(root, path, text, bucket)
    ensures |path| <= MAX_DEPTH
    ensures forall i :: 0 <= i < |path| ==> ValidName(path[i])
  {
    path := WalkFilesOnlyVisited(root, [], Filing(bucket, text));
    assert [] + path == path;
    VisitedIsThere(root, path, 0);
    PathNamesValid(root, path);
  }

  lemma OwnHasOneSeverity(rel: Path, node: Node, text: string)
    requires rel != []
    ensures Filing(PossibleKeys, text) !in Own(rel, node) || Filing(UnexplainedPaths, text) !in Own(rel, node)
  {
  }

  /** No path is in both severities. */
  lemma OneSeverity(root: Node, text: string)
    requires ValidTree(root) && Scanned(Some(root)).Ok?
    ensures text !in In(Scanned(Some(root)).value, PossibleKeys) * In(Scanned(Some(root)).value, UnexplainedPaths)
  {
    var found := Scanned(Some(root)).value;
    if text in In(found, PossibleKeys) * In(found, UnexplainedPaths) {
      var p := ReportHasAPath(root, text, PossibleKeys);
      var q := ReportHasAPath(root, text, UnexplainedPaths);
      RelStrInjective(p, q);
      OwnHasOneSeverity([] + p, Lookup(root, p).value, text);
    }
  }

  /** The name of a derivation key's file, of its stage, or its bare id. */
  ghost predicate KeyName(name: string) {
    exists id :: IsGroupId(id) && (name == id + ".json" || name == id || name == ".stage-" + id)
  }

  lemma KeyNameExactly(name: string)
    ensures NamesKeyMaterial(name) <==> KeyName(name)
  {
    if GroupStem(name).Some? {
      GroupStemExact(name, GroupStem(name).value);
    }
    if StageName(name).Some? {
      StageNameExact(name, StageName(name).value);
    }
    if KeyName(name) {
      var id :| IsGroupId(id) && (name == id + ".json" || name == id || name == ".stage-" + id);
      GroupStemExact(name, id);
      StageNameExact(name, OfGroup(id));
    }
  }

  /** A look inside, without a password, does not rule a key out: it cannot be looked into, or looks like a vault. */
  predicate NotRuledOut(path: Path, node: Node) {
    match node
    case File(blob, readable, _) =>
      (blob.Foreign? ==> blob.size <= 64 * 1024) && (!readable || blob.Whole? || (blob.Foreign? && (!blob.text || blob.vaultShaped)))
    case Dir(_, _, complete, _) => |path| >= 3 || !complete
    case _ => false
  }

  ghost predicate MayBeAKey(path: Path, node: Node) {
    NotRuledOut(path, node) || (path != [] && path[0] == "groups") || exists i :: 0 <= i < |path| && KeyName(path[i])
  }

  lemma OwnSeverity(path: Path, node: Node)
    requires path != [] && Classify(path, KindOf(node)) == Unexplained
    ensures Filing(if MayBeAKey(path, node) then PossibleKeys else UnexplainedPaths, RelStr(path)) in Own(path, node)
  {
    var seen := SeenOf(path, node);
    SeenExactly(path, node);
    assert CouldBeKey(path, seen) <==> MayBeAKey(path, node) by {
      forall i | 0 <= i < |path| ensures NamesKeyMaterial(path[i]) <==> KeyName(path[i]) {
        KeyNameExactly(path[i]);
      }
    }
    assert Filing(if CouldBeKey(path, seen) then PossibleKeys else UnexplainedPaths, RelStr(path)) in FiledAs(path, Unexplained, seen);
  }

  lemma SeenExactly(path: Path, node: Node)
    requires path != [] && Classify(path, KindOf(node)) == Unexplained
    ensures SeenOf(path, node) == Maybe <==> NotRuledOut(path, node)
  {
  }

  /**
   Of what the layout does not explain, exactly that is reported as a possible key which a look
   inside does not rule out, or which is in the directory of keys, or has a key's name, or is in
   something that has one. The rest is reported as unexplained.
   */
  lemma SeverityExactly(root: Node, path: Path)
    requires ValidTree(root) && Scanned(Some(root)).Ok? && Visited(root, path, 0) && Lookup(root, path).Some?
    requires Classify(path, KindOf(Lookup(root, path).value)) == Unexplained
    ensures
      var found, node := Scanned(Some(root)).value, Lookup(root, path).value;
      && (RelStr(path) in In(found, PossibleKeys) <==> MayBeAKey(path, node))
      && (RelStr(path) in In(found, UnexplainedPaths) <==> !MayBeAKey(path, node))
  {
    var node := Lookup(root, path).value;
    var f := Filing(if MayBeAKey(path, node) then PossibleKeys else UnexplainedPaths, RelStr(path));
    OwnSeverity(path, node);
    assert [] + path == path;
    WalkFilesAllVisited(root, [], path, f);
    Member(Walk(root, []), f);
    OneSeverity(root, RelStr(path));
  }

  /** Of what the layout does explain, exactly a directory that was not listed to its end is reported, as a possible key. */
  lemma ExplainedSeverity(root: Node, path: Path)
    requires ValidTree(root) && Scanned(Some(root)).Ok? && Visited(root, path, 0) && Lookup(root, path).Some?
    requires Classify(path, KindOf(Lookup(root, path).value)) != Unexplained
    ensures
      var found, node := Scanned(Some(root)).value, Lookup(root, path).value;
      && (RelStr(path) in In(found, PossibleKeys) <==> node.Dir? && !node.complete)
      && RelStr(path) !in In(found, UnexplainedPaths)
  {
    OwnReports(root, path, PossibleKeys);
    OwnReports(root, path, UnexplainedPaths);
    ExplainedOwn(path, Lookup(root, path).value);
  }

  /** A path is reported in a bucket iff it is what files it there. */
  lemma OwnReports(root: Node, path: Path, bucket: Bucket)
    requires ValidTree(root) && Scanned(Some(root)).Ok? && Visited(root, path, 0) && Lookup(root, path).Some?
    requires bucket in {PossibleKeys, UnexplainedPaths, DocStages}
    ensures RelStr(path) in In(Scanned(Some(root)).value, bucket) <==> Filing(bucket, RelStr(path)) in Own(path, Lookup(root, path).value)
  {
    assert [] + path == path;
    if RelStr(path) in In(Scanned(Some(root)).value, bucket) {
      var p := ReportHasAPath(root, RelStr(path), bucket);
      PathNamesValid(root, path);
      RelStrInjective(p, path);
    } else if Filing(bucket, RelStr(path)) in Own(path, Lookup(root, path).value) {
      WalkFilesAllVisited(root, [], path, Filing(bucket, RelStr(path)));
      Member(Walk(root, []), Filing(bucket, RelStr(path)));
    }
  }

  lemma ExplainedOwn(path: Path, node: Node)
    requires path != [] && Classify(path, KindOf(node)) != Unexplained
    ensures Filing(PossibleKeys, RelStr(path)) in Own(path, node) <==> node.Dir? && !node.complete
    ensures Filing(UnexplainedPaths, RelStr(path)) !in Own(path, node)
  {
    if node.Dir? {
      ShallowIfExplained(path, node);
    }
  }

  lemma ShallowIfExplained(path: Path, node: Node)
    requires path != [] && node.Dir? && Classify(path, KindOf(node)) != Unexplained
    ensures |path| < MAX_DEPTH
    ensures !node.complete ==> Filing(PossibleKeys, RelStr(path)) in Own(path, node)
  {
  }

  /** Every link the walk gets to is listed with where it leads, and nothing else is. */
  lemma LinksExactly(root: Node, text: string)
    requires ValidTree(root) && Scanned(Some(root)).Ok?
    ensures text in In(Scanned(Some(root)).value, Links) <==> exists path :: LinkAt(root, path, text)
  {
    var found := Scanned(Some(root)).value;
    if text in In(found, Links) {
      var path := WalkFilesOnlyVisited(root, [], Filing(Links, text));
      assert [] + path == path;
      assert LinkAt(root, path, text);
    }
    if exists path :: LinkAt(root, path, text) {
      var path :| LinkAt(root, path, text);
      assert [] + path == path;
      WalkFilesAllVisited(root, [], path, Filing(Links, text));
      Member(Walk(root, []), Filing(Links, text));
    }
  }

  ghost predicate LinkAt(root: Node, path: Path, text: string)
    requires root.Dir?
  {
    && Visited(root, path, 0) && Lookup(root, path).Some? && Lookup(root, path).value.Link?
    && text == RelStr(path) + " -> " + Lookup(root, path).value.target
  }

  /**
   Account vaults are exactly the files under the root that are named for an address, and
   the stages exactly the directories named for one.
   */
  lemma RootBucketsExact(root: Node, a: string)
    requires ValidTree(root) && Scanned(Some(root)).Ok?
    ensures
      var found := Scanned(Some(root)).value;
      && (a in In(found, Vaults) <==> IsAddr(a) && VaultFile(a) in root.entries && root.entries[VaultFile(a)].File?)
      && (a in In(found, VaultStages) <==>
            var d := StageDirName(OfVault(a)); IsAddr(a) && d in root.entries && root.entries[d].Dir?)
      && (a in In(found, ImportStages) <==>
            var d := StageDirName(OfImport(a)); IsNonce(a) && d in root.entries && root.entries[d].Dir?)
  {
    RootBucketExact(root, VaultEntry(a), Vaults, a);
    RootBucketExact(root, VaultStage(a), VaultStages, a);
    RootBucketExact(root, ImportStage(a), ImportStages, a);
  }

  lemma RootBucketExact(root: Node, e: Entry, bucket: Bucket, a: string)
    requires ValidTree(root) && Scanned(Some(root)).Ok?
    requires (e == VaultEntry(a) && bucket == Vaults)
          || (e == VaultStage(a) && bucket == VaultStages)
          || (e == ImportStage(a) && bucket == ImportStages)
    ensures a in In(Scanned(Some(root)).value, bucket) <==>
      ValidEntry(e) && PathOf(e)[0] in root.entries && KindOf(root.entries[PathOf(e)[0]]) == KindOfEntry(e)
  {
    var path := PathOf(e);
    assert path == [path[0]] && path[1..] == [] && [] + path == path;
    if a in In(Scanned(Some(root)).value, bucket) {
      var p := WalkFilesOnlyVisited(root, [], Filing(bucket, a));
      assert [] + p == p;
      OwnBucket(p, Lookup(root, p).value, e, bucket, a);
      ClassifyInvertsRel(p, KindOf(Lookup(root, p).value), e);
      assert p == path && path[0] in root.entries;
      assert Lookup(root.entries[path[0]], []) == Some(root.entries[path[0]]);
    }
    if ValidEntry(e) && path[0] in root.entries && KindOf(root.entries[path[0]]) == KindOfEntry(e) {
      var node := root.entries[path[0]];
      ClassifyInvertsRel(path, KindOfEntry(e), e);
      OwnBucket(path, node, e, bucket, a);
      WalkHasEntry(root, [], path[0]);
      assert [] + [path[0]] == path;
      Member(Walk(root, []), Filing(bucket, a));
    }
  }

  /** Which bucket names what a slot holds. */
  function BucketOf(e: Entry): Option<Filing> {
    match e
    case VaultEntry(a) => Some(Filing(Vaults, a))
    case StagedVault(a) => Some(Filing(StagedVaults, a))
    case VaultStage(a) => Some(Filing(VaultStages, a))
    case ImportStage(n) => Some(Filing(ImportStages, n))
    case GroupKeyEntry(id) => Some(Filing(Keys, id))
    case StagedGroupKey(id) => Some(Filing(Staged, id))
    case _ => None
  }

  /**
   The same for all six buckets of slots, the keys at either path among them: an id is listed
   exactly where the walk gets to that slot's path and finds its one kind there.
   */
  lemma SlotBucketsExact(root: Node, e: Entry)
    requires ValidTree(root) && Scanned(Some(root)).Ok? && BucketOf(e).Some?
    ensures
      var f := BucketOf(e).value;
      f.text in In(Scanned(Some(root)).value, f.bucket) <==>
        && ValidEntry(e) && Visited(root, PathOf(e), 0) && Lookup(root, PathOf(e)).Some?
        && KindOf(Lookup(root, PathOf(e)).value) == KindOfEntry(e)
  {
    var f, path := BucketOf(e).value, PathOf(e);
    var found := Scanned(Some(root)).value;
    if f.text in In(found, f.bucket) {
      var p := WalkFilesOnlyVisited(root, [], f);
      assert [] + p == p;
      OwnSlot(p, Lookup(root, p).value, e);
      ClassifyInvertsRel(p, KindOf(Lookup(root, p).value), e);
    }
    if ValidEntry(e) && Visited(root, path, 0) && Lookup(root, path).Some? && KindOf(Lookup(root, path).value) == KindOfEntry(e) {
      assert [] + path == path;
      OwnSlot(path, Lookup(root, path).value, e);
      ClassifyInvertsRel(path, KindOfEntry(e), e);
      WalkFilesAllVisited(root, [], path, f);
      Member(found, f);
    }
  }

  lemma OwnSlot(rel: Path, node: Node, e: Entry)
    requires rel != [] && BucketOf(e).Some?
    ensures BucketOf(e).value in Own(rel, node) <==> Classify(rel, KindOf(node)) == e
  {
  }

  lemma OwnBucket(rel: Path, node: Node, e: Entry, bucket: Bucket, a: string)
    requires rel != []
    requires (e == VaultEntry(a) && bucket == Vaults)
          || (e == VaultStage(a) && bucket == VaultStages)
          || (e == ImportStage(a) && bucket == ImportStages)
    ensures Filing(bucket, a) in Own(rel, node) <==> Classify(rel, KindOf(node)) == e
  {
  }
}
