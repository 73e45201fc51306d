/**
 Whose vault the authority names, and which password opens it.

 Models the answers of `held_vault` and `signer_for` in rust-lib/src/keystore.rs on one state of
 the directory: a key comes from a file under the account's own name, whole, under the password
 it was written with, and only if the key is the account's.
 */
module Opening {
  import opened Base
  import opened Text
  import opened Layout
  import opened Tree
  import opened Scan
  import opened Coverage
  import opened Reports
  import opened Recovery

  // ---- the authority's answer for one address ------------------------------------------

  ghost function Held(root: Option<Node>, a: string): Result<()> {
    var found := Scanned(root);
    if found.Err? then Err(found.error)
    else if a in In(found.value, Vaults) then Ok(())
    else if VaultFile(a) in In(found.value, UnexplainedPaths) + In(found.value, PossibleKeys) then Err(Refused)
    else Err(NotFound)
  }

  /** What a vault's file and a password come to. The filename is a claim; the key is the proof. */
  function Opened(node: Node, password: string, a: string, addrOf: Secret -> string): Result<Secret> {
    if !node.File? || !node.readable then Err(VaultError)
    else if !node.blob.Whole? || node.blob.password != password then Err(VaultError)
    else if addrOf(node.blob.secret) != a then Err(Refused)
    else Ok(node.blob.secret)
  }

  /** The key an account acts with: the authority's answer, then the vault's. */
  ghost function SignerIn(root: Option<Node>, a: string, password: string, addrOf: Secret -> string): Result<Secret> {
    if Held(root, a).Err? then Err(Held(root, a).error)
    else if root.Some? && root.value.Dir? && VaultFile(a) in root.value.entries
    then Opened(root.value.entries[VaultFile(a)], password, a, addrOf)
    else Err(NotFound)
  }

  // ---- exactly what is held, and what opens --------------------------------------------

  /** The directory can be listed to its end, and so can be said what it holds. */
  predicate Lists(root: Option<Node>) {
    root.Some? ==> root.value.Dir? && root.value.complete
  }

  function Under(root: Option<Node>): Entries {
    if root.Some? && root.value.Dir? then root.value.entries else map[]
  }

  /** Something at the real path is either the vault, or named by the scan and refused. */
  lemma HeldStays(root: Option<Node>, a: string)
    requires IsAddr(a) && root.Some? && root.value.Dir? && ValidTree(root.value)
    requires VaultFile(a) in root.value.entries && Scanned(root).Ok?
    ensures Held(root, a) != Err(NotFound)
  {
    RootBucketsExact(root.value, a);
    if !root.value.entries[VaultFile(a)].File? {
      StrayAtVaultPath(root.value, a);
    }
  }

  lemma StrayAtVaultPath(root: Node, a: string)
    requires Sound(root) && IsAddr(a)
    requires VaultFile(a) in root.entries && !root.entries[VaultFile(a)].File?
    ensures VaultFile(a) in In(Walk(root, []), UnexplainedPaths) + In(Walk(root, []), PossibleKeys)
  {
    var path, node := [VaultFile(a)], root.entries[VaultFile(a)];
    assert Classify(path, KindOf(node)) == Unexplained by {
      VaultFilesAreNoStages(a);
      assert VaultFile(a) != GROUPS by {
        assert |VaultFile(a)| == 45 && |GROUPS| == 6;
      }
    }
    WalkHasEntry(root, [], VaultFile(a));
    assert [] + path == path && RelStr(path) == VaultFile(a);
    var bucket := if CouldBeKey(path, SeenOf(path, node)) then PossibleKeys else UnexplainedPaths;
    assert Filing(bucket, VaultFile(a)) in Own(path, node);
    Member(Walk(root, []), Filing(bucket, VaultFile(a)));
  }

  /** A path the scan reports under the root is there, and the account's own file is not reported. */
  lemma ReportedAtVaultPath(root: Node, a: string)
    requires Sound(root) && IsAddr(a)
    requires VaultFile(a) in In(Walk(root, []), UnexplainedPaths) + In(Walk(root, []), PossibleKeys)
    ensures VaultFile(a) in root.entries && !root.entries[VaultFile(a)].File?
  {
    var bucket := if VaultFile(a) in In(Walk(root, []), PossibleKeys) then PossibleKeys else UnexplainedPaths;
    var path := ReportHasAPath(root, VaultFile(a), bucket);
    VaultNameIsValid(a);
    RelStrInjective(path, [VaultFile(a)]);
    assert path[1..] == [] && [] + path == path;
    VisitedIsThere(root, path, 0);
    var node := root.entries[path[0]];
    assert Lookup(node, []) == Some(node);
    assert Lookup(root, path) == Some(node);
    assert Filing(bucket, VaultFile(a)) in Own(path, node);
    OwnFileIsFiled(node, a);
  }

  /** A file at an account's path is filed as its vault, and as nothing else. */
  lemma OwnFileIsFiled(node: Node, a: string)
    requires IsAddr(a)
    ensures node.File? ==> Own([VaultFile(a)], node) == {Filing(Vaults, a)}
  {
    ClassifyInvertsRel([VaultFile(a)], IsFile, VaultEntry(a));
  }

  lemma VaultNameIsValid(a: string)
    requires IsAddr(a)
    ensures ValidName(VaultFile(a))
  {
    assert |VaultFile(a)| == 45;
    forall i | 0 <= i < 45 ensures VaultFile(a)[i] != '/' {
      assert i < 40 ==> IsLowerHex(VaultFile(a)[i]);
    }
  }

  /** What the authority says of an address, in terms of what is at its path. */
  lemma HeldExactly(root: Option<Node>, a: string)
    requires IsAddr(a) && (root.Some? ==> ValidTree(root.value))
    ensures Held(root, a) ==
      if !Lists(root) then Err(Corrupt)
      else if VaultFile(a) !in Under(root) then Err(NotFound)
      else if Under(root)[VaultFile(a)].File? then Ok(())
      else Err(Refused)
  {
    if Lists(root) && root.Some? {
      RootBucketsExact(root.value, a);
      if VaultFile(a) in Under(root) {
        HeldStays(root, a);
      } else if Held(root, a) == Err(Refused) {
        ReportedAtVaultPath(root.value, a);
      }
    }
  }

  /** The directory holds this account's vault: the account's own key, whole, under this password. */
  predicate HoldsOwn(root: Option<Node>, a: string, secret: Secret, password: string, addrOf: Secret -> string) {
    Lists(root) && HoldsVault(Under(root), a, secret, password) && addrOf(secret) == a
  }

  /** Something is at the account's path that is not its vault: no file, or a key of another's that opens. */
  predicate HoldsAnothers(root: Option<Node>, a: string, password: string, addrOf: Secret -> string) {
    Lists(root) && VaultFile(a) in Under(root) &&
      var node := Under(root)[VaultFile(a)];
      !node.File? || (HoldsVault(Under(root), a, SecretOf(node), password) && addrOf(SecretOf(node)) != a)
  }

  function SecretOf(node: Node): Secret {
    if node.File? && node.blob.Whole? then node.blob.secret else Secret(0)
  }

  /**
   A key is used iff the directory holds it as this account's own under this password. Each
   refusal has its own reason: a listing cut short, nothing there, something that is not this
   account's; and all that is left is a vault this password does not open.
   */
  lemma SignerExactly(root: Option<Node>, a: string, password: string, addrOf: Secret -> string, secret: Secret)
    requires IsAddr(a) && (root.Some? ==> ValidTree(root.value))
    ensures SignerIn(root, a, password, addrOf) == Ok(secret) <==> HoldsOwn(root, a, secret, password, addrOf)
    ensures SignerIn(root, a, password, addrOf) == Err(Corrupt) <==> !Lists(root)
    ensures SignerIn(root, a, password, addrOf) == Err(NotFound) <==> Lists(root) && VaultFile(a) !in Under(root)
    ensures SignerIn(root, a, password, addrOf) == Err(Refused) <==> HoldsAnothers(root, a, password, addrOf)
    ensures SignerIn(root, a, password, addrOf).Err? ==>
      SignerIn(root, a, password, addrOf).error in {Corrupt, NotFound, Refused, VaultError}
  {
    HeldExactly(root, a);
  }

  lemma OwnOpens(root: Option<Node>, a: string, password: string, addrOf: Secret -> string)
    requires IsAddr(a) && (root.Some? ==> ValidTree(root.value))
    ensures SignerIn(root, a, password, addrOf).Ok? <==> exists own :: HoldsOwn(root, a, own, password, addrOf)
    ensures forall own {:trigger HoldsOwn(root, a, own, password, addrOf)} ::
      SignerIn(root, a, password, addrOf) == Ok(own) <==> HoldsOwn(root, a, own, password, addrOf)
  {
    forall own ensures SignerIn(root, a, password, addrOf) == Ok(own) <==> HoldsOwn(root, a, own, password, addrOf) {
      SignerExactly(root, a, password, addrOf, own);
    }
    var signer := SignerIn(root, a, password, addrOf);
    if signer.Ok? {
      assert HoldsOwn(root, a, signer.value, password, addrOf);
    }
  }

  /** What a vault that was written answers, under any password at all. */
  function Answer(a: string, secret: Secret, password: string, tried: string, addrOf: Secret -> string): Result<Secret> {
    if tried != password then Err(VaultError) else if addrOf(secret) != a then Err(Refused) else Ok(secret)
  }

  /** A vault as it is written opens for its own password, and for no other. */
  lemma WrittenOpens(root: Option<Node>, a: string, secret: Secret, password: string, tried: string, addrOf: Secret -> string)
    requires IsAddr(a) && Lists(root) && (root.Some? ==> ValidTree(root.value))
    requires EntryAt(Under(root), VaultFile(a)) == Some(Written(secret, password))
    ensures Held(root, a) == Ok(()) && SignerIn(root, a, tried, addrOf) == Answer(a, secret, password, tried, addrOf)
  {
    HeldExactly(root, a);
  }
}
