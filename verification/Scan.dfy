/**
 The one scan: everything under the keystore directory, classified and filed.

 Models `scan`, `walk`, `descend`, `file`, `look` and `could_be_key` of
 rust-lib/src/layout.rs. The order a directory is read in is not specified, and every bucket
 is sorted and deduplicated at the end, so a bucket is a set.
 */
module Scan {
  import opened Base
  import opened Text
  import opened Layout
  import opened Tree

  datatype Bucket =
    | Vaults | StagedVaults | VaultStages | ImportStages | Keys | Staged
    | DocStages | PossibleKeys | UnexplainedPaths | Links

  datatype Filing = Filing(bucket: Bucket, text: string)

  /** The buckets of one scan together: each text is tagged with the bucket it was pushed to. */
  type Found = set<Filing>

  /** One bucket. */
  function In(found: Found, bucket: Bucket): set<string> {
    set f | f in found && f.bucket == bucket :: f.text
  }

  /** What a look inside, without a password, found. */
  datatype Seen = Nothing | Maybe

  function RelStr(rel: Path): string
    requires rel != []
  {
    Join(rel, '/')
  }

  // ---- one entry -----------------------------------------------------------------------

  function LookInside(node: Node): Seen {
    if !node.File? then Nothing
    else if SizeOf(node.blob) > VAULT_PROBE_LIMIT then Nothing
    else if !node.readable || !IsText(node.blob) then Maybe
    else if LooksLikeAVault(node.blob) then Maybe
    else Nothing
  }

  predicate CouldBeKey(rel: Path, seen: Seen) {
    || seen == Maybe
    || (exists i :: 0 <= i < |rel| && NamesKeyMaterial(rel[i]))
    || (rel != [] && rel[0] == GROUPS)
  }

  /** Whether the walk saw everything it looks for inside this entry. */
  predicate Readable(rel: Path, node: Node) {
    !node.Dir? || |rel| >= MAX_DEPTH || node.complete
  }

  /** `file`: the bucket one classified entry goes to. */
  function FiledAs(rel: Path, what: Entry, seen: Seen): set<Filing>
    requires rel != []
  {
    match what
    case VaultEntry(a) => {Filing(Vaults, a)}
    case StagedVault(a) => {Filing(StagedVaults, a)}
    case VaultStage(a) => {Filing(VaultStages, a)}
    case ImportStage(n) => {Filing(ImportStages, n)}
    case GroupKeyEntry(id) => {Filing(Keys, id)}
    case StagedGroupKey(id) => {Filing(Staged, id)}
    case DocStage => {Filing(DocStages, RelStr(rel))}
    case Unexplained => {Filing(if CouldBeKey(rel, seen) then PossibleKeys else UnexplainedPaths, RelStr(rel))}
    case _ => {}
  }

  function SeenOf(rel: Path, node: Node): Seen {
    if Classify(rel, KindOf(node)) != Unexplained then Nothing
    else if node.Dir? then (if Readable(rel, node) && |rel| < MAX_DEPTH then Nothing else Maybe)
    else LookInside(node)
  }

  /** Everything the walk files for one entry itself, apart from what is inside it. */
  function Own(rel: Path, node: Node): set<Filing>
    requires rel != []
  {
    var what := Classify(rel, KindOf(node));
    (if node.Link? then {Filing(Links, RelStr(rel) + " -> " + node.target)} else {}) +
    (if what != Unexplained && !Readable(rel, node) then {Filing(PossibleKeys, RelStr(rel))} else {}) +
    FiledAs(rel, what, SeenOf(rel, node))
  }

  // ---- the walk, as a set of filings ---------------------------------------------------

  ghost function WalkOver(dir: Node, rel: Path, names: set<string>): set<Filing>
    requires dir.Dir?
    decreases dir, 0
  {
    set n, f | n in names && n in dir.entries && f in At(dir.entries[n], rel + [n]) :: f
  }

  ghost function Walk(dir: Node, rel: Path): set<Filing>
    requires dir.Dir?
    decreases dir, 1
  {
    WalkOver(dir, rel, dir.shown)
  }

  /** One entry and, where the walk descends, everything under it. */
  ghost function At(node: Node, rel: Path): set<Filing>
    requires rel != []
    decreases node, 2
  {
    (if node.Dir? && |rel| < MAX_DEPTH then Walk(node, rel) else {}) + Own(rel, node)
  }

  /** What `scan` answers: absent is empty, and a root it cannot read to the end refuses. */
  ghost function Scanned(root: Option<Node>): Result<Found> {
    if root.None? then Ok({})
    else if !root.value.Dir? || !root.value.complete then Err(Corrupt)
    else Ok(Walk(root.value, []))
  }

  lemma WalkOneMore(dir: Node, rel: Path, names: set<string>, n: string)
    requires dir.Dir? && n in dir.entries
    ensures WalkOver(dir, rel, names + {n}) == WalkOver(dir, rel, names) + At(dir.entries[n], rel + [n])
  {
  }

  // ---- the walk, as it runs ------------------------------------------------------------

  /** The buckets a scan pushes into while it walks. */
  class Collector {
    var found: Found

    constructor ()
      ensures found == {}
    {
      found := {};
    }

    method Push(bucket: Bucket, text: string)
      modifies this
      ensures found == old(found) + {Filing(bucket, text)}
    {
      found := found + {Filing(bucket, text)};
    }

    method FileEntry(rel: Path, what: Entry, seen: Seen)
      requires rel != []
      modifies this
      ensures found == old(found) + FiledAs(rel, what, seen)
    {
      match what {
        case VaultEntry(a) => Push(Vaults, a);
        case StagedVault(a) => Push(StagedVaults, a);
        case VaultStage(a) => Push(VaultStages, a);
        case ImportStage(n) => Push(ImportStages, n);
        case GroupKeyEntry(id) => Push(Keys, id);
        case StagedGroupKey(id) => Push(Staged, id);
        case DocStage => Push(DocStages, RelStr(rel));
        case Unexplained =>
          if CouldBeKey(rel, seen) {
            Push(PossibleKeys, RelStr(rel));
          } else {
            Push(UnexplainedPaths, RelStr(rel));
          }
        case _ =>
      }
    }

    /** One entry: descend first, then file it by what the descent could see. */
    method VisitEntry(node: Node, rel: Path)
      requires rel != []
      modifies this
      ensures found == old(found) + At(node, rel)
      decreases node, 2
    {
      if node.Link? {
        Push(Links, RelStr(rel) + " -> " + node.target);
      }
      var what := Classify(rel, KindOf(node));
      var readable := true;
      if node.Dir? && |rel| < MAX_DEPTH {
        readable := VisitDir(node, rel);
      }
      var seen := Nothing;
      if what == Unexplained {
        if node.Dir? {
          seen := if readable && |rel| < MAX_DEPTH then Nothing else Maybe;
        } else {
          seen := LookInside(node);
        }
      } else if !readable {
        Push(PossibleKeys, RelStr(rel));
      }
      FileEntry(rel, what, seen);
    }

    /** Every entry an enumeration delivers; whether it was read to the end. */
    method VisitDir(dir: Node, rel: Path) returns (complete: bool)
      requires dir.Dir?
      modifies this
      ensures found == old(found) + Walk(dir, rel)
      ensures complete == dir.complete
      decreases dir, 1
    {
      var todo := dir.shown;
      ghost var done: set<string> := {};
      assert WalkOver(dir, rel, {}) == {};
      while todo != {}
        invariant done + todo == dir.shown
        invariant found == old(found) + WalkOver(dir, rel, done)
        decreases todo
      {
        var n :| n in todo;
        if n in dir.entries {
          VisitEntry(dir.entries[n], rel + [n]);
          WalkOneMore(dir, rel, done, n);
        } else {
          assert WalkOver(dir, rel, done + {n}) == WalkOver(dir, rel, done);
        }
        todo := todo - {n};
        done := done + {n};
      }
      complete := dir.complete;
    }
  }

  method RunScan(root: Option<Node>) returns (r: Result<Found>)
    ensures r == Scanned(root)
  {
    if root.None? {
      return Ok({});
    }
    if !root.value.Dir? {
      return Err(Corrupt);
    }
    var out := new Collector();
    var complete := out.VisitDir(root.value, []);
    if !complete {
      return Err(Corrupt);
    }
    assert out.found == Walk(root.value, []);
    return Ok(out.found);
  }
}
