/**
 The directory the keystore lives in, as a tree: names to files, directories, links and
 anything else, with what can and cannot be read of each.
 */
module Tree {
  import opened Base
  import opened Text
  import opened Layout

  /** A private key. Which address it has is a parameter where it matters. */
  datatype Secret = Secret(bits: nat)

  /** What a file holds, as far as this keystore tells contents apart. */
  datatype Blob =
    /** A finished vault: one secret, opened by one password. */
    | Whole(secret: Secret, password: string)
    /** The beginning of a vault whose write was cut short. Not JSON. */
    | Torn
    | Foreign(size: nat, text: bool, vaultShaped: bool, kdfInRange: bool)

  /**
   What following a link finds: nothing, though a file may be creatable there; something that
   is no file, though it may open for reading and writing; or a file.
   */
  datatype Sight = Dangling(creatable: bool) | Elsewhere(opens: bool) | Sees(blob: Blob, readable: bool, writable: bool)

  /**
   A special node is a fifo, a socket or a device, and some of these open like a file.
   `shown` are the names an enumeration delivers, in no particular order, before it ends or
   fails; `complete` says which. A directory nobody may open shows nothing and is incomplete.
   `writable` says whether what a directory holds can be unlinked.
   */
  datatype Node =
    | File(blob: Blob, readable: bool, writable: bool)
    | Dir(entries: map<string, Node>, shown: set<string>, complete: bool, writable: bool)
    | Link(target: string, sight: Sight)
    | Special(opens: bool)

  function KindOf(node: Node): Kind {
    match node
    case File(_, _, _) => IsFile
    case Dir(_, _, _, _) => IsDir
    case Link(_, _) => IsLink
    case Special(_) => IsOther
  }

  const VAULT_PROBE_LIMIT: nat := 64 * 1024

  function SizeOf(blob: Blob): nat {
    if blob.Foreign? then blob.size else 0
  }

  predicate IsText(blob: Blob) {
    blob.Foreign? ==> blob.text
  }

  /** `looks_like_a_vault`. */
  predicate LooksLikeAVault(blob: Blob) {
    blob.Whole? || (blob.Foreign? && blob.vaultShaped)
  }

  /** `check_kdf_params` accepts it. A torn vault is not JSON, so it never does. */
  predicate KdfInRange(blob: Blob) {
    blob.Whole? || (blob.Foreign? && blob.text && blob.kdfInRange)
  }

  // ---- trees ---------------------------------------------------------------------------

  /** A component a directory listing can deliver. */
  predicate ValidName(name: string) {
    name != "" && Free(name, '/') && name != "." && name != ".."
  }

  ghost predicate ValidTree(node: Node) {
    node.Dir? ==>
      && node.shown <= node.entries.Keys
      && (node.complete ==> node.shown == node.entries.Keys)
      && forall n :: n in node.entries ==> ValidName(n) && ValidTree(node.entries[n])
  }

  function Lookup(node: Node, path: Path): Option<Node> {
    if path == [] then Some(node)
    else if node.Dir? && path[0] in node.entries then Lookup(node.entries[path[0]], path[1..])
    else None
  }

  lemma {:induction false} LookupThrough(node: Node, path: Path, k: nat)
    requires k <= |path| && Lookup(node, path).Some?
    ensures Lookup(node, path[..k]).Some?
    ensures Lookup(Lookup(node, path[..k]).value, path[k..]) == Lookup(node, path)
    ensures k < |path| ==> Lookup(node, path[..k]).value.Dir?
  {
    if k == 0 {
      assert path[..0] == [] && path[0..] == path;
    } else {
      LookupThrough(node.entries[path[0]], path[1..], k - 1);
      assert path[..k][1..] == path[1..][..k - 1];
      assert path[1..][k - 1..] == path[k..];
    }
  }

  /** What a removal cut short leaves of a node: any of its files may be gone, at any depth. */
  ghost predicate Remnant(x: Node, y: Node) {
    y == x || (x.Dir? && y.Dir? && forall n :: n in y.entries ==> n in x.entries && Remnant(x.entries[n], y.entries[n]))
  }
}
