/**
 What a kill leaves of a vault write, and what `settle` makes of it.

 Models the steps of `Stage` in rust-lib/src/atomic.rs and `write_vault`, `settle` and
 `openable` of rust-lib/src/keystore.rs as functions from one directory listing to the
 next. A kill can land between any two steps; a rename is one step. The host performs every
 operation `settle` asks of it.
 */
module Recovery {
  import opened Base
  import opened Text
  import opened Layout
  import opened Tree
  import opened Scan
  import opened Coverage
  import opened Reports

  type Entries = map<string, Node>

  function StageDir(a: string): string {
    StageDirName(OfVault(a))
  }

  function ImportDir(nonce: string): string {
    StageDirName(OfImport(nonce))
  }

  function FullDir(entries: Entries): Node {
    Dir(entries, entries.Keys, true, true)
  }

  // ---- names that cannot meet ----------------------------------------------------------

  lemma DistinctNames(a: string, b: string, nonce: string)
    ensures VaultFile(a) == VaultFile(b) ==> a == b
    ensures StageDir(a) == StageDir(b) ==> a == b
    ensures IsAddr(a) && IsAddr(b) ==> VaultFile(a) != StageDir(b)
    ensures IsAddr(a) ==> VaultFile(a) != ImportDir(nonce) && StageDir(a) != ImportDir(nonce)
    ensures IsAddr(a) ==> VaultFile(a) != LOCK && StageDir(a) != LOCK
    ensures ImportDir(nonce) != LOCK
    ensures IsAddr(a) ==> VaultStem(VaultFile(a)) == Some(a)
    ensures IsAddr(a) ==> StageName(StageDir(a)) == Some(OfVault(a))
  {
    VaultFilesDiffer(a, b);
    StagesDiffer(a, b, nonce);
    if IsAddr(a) {
      assert IsLowerHex(VaultFile(a)[0]) && |VaultFile(a)| == 45;
      assert StageDir(b)[0] == '.' && ImportDir(nonce)[0] == '.' && |LOCK| == 5;
      VaultStemExact(VaultFile(a), a);
      StageNameExact(StageDir(a), OfVault(a));
    }
  }

  lemma VaultFilesDiffer(a: string, b: string)
    ensures VaultFile(a) == VaultFile(b) ==> a == b
  {
    if VaultFile(a) == VaultFile(b) {
      assert VaultFile(a)[..|a|] == a && VaultFile(b)[..|b|] == b;
    }
  }

  lemma StagesDiffer(a: string, b: string, nonce: string)
    ensures StageDir(a) == StageDir(b) ==> a == b
    ensures IsAddr(a) ==> StageDir(a) != ImportDir(nonce)
    ensures |StageDir(a)| >= 7 && |ImportDir(nonce)| >= 7
  {
    assert StageDir(a)[7..] == a && StageDir(b)[7..] == b;
    assert ImportDir(nonce)[7..] == IMPORT_INFIX + nonce;
    if IsAddr(a) {
      assert IsLowerHex(a[0]);
      assert (IMPORT_INFIX + nonce)[0] == 'i';
    }
  }

  // ---- the steps of one vault write ----------------------------------------------------

  /** The staging path is free, or holds a leftover that can be replaced. */
  predicate Stageable(es: Entries, a: string) {
    StageDir(a) in es ==> es[StageDir(a)].Dir? || es[StageDir(a)].Link?
  }

  /** A rename replaces anything but a directory. */
  predicate Promotable(es: Entries, a: string) {
    VaultFile(a) in es ==> !es[VaultFile(a)].Dir?
  }

  /** The leftover of an earlier write is gone. */
  function Cleared(es: Entries, a: string): Entries {
    es - {StageDir(a)}
  }

  function WithStage(es: Entries, a: string, inside: Entries): Entries {
    es[StageDir(a) := FullDir(inside)]
  }

  function Written(secret: Secret, password: string): Node {
    File(Whole(secret, password), true, true)
  }

  /** The account's real path holds this secret, whole, under this password. */
  predicate HoldsVault(es: Entries, a: string, secret: Secret, password: string) {
    && VaultFile(a) in es && es[VaultFile(a)].File?
    && es[VaultFile(a)].readable && es[VaultFile(a)].blob == Whole(secret, password)
  }

  /** Steps a whole write takes. */
  const WRITE_STEPS: nat := 6
  /** The step that renames the vault out. */
  const RENAME_STEP: nat := 5

  /** The directory after `i` steps of a write that nothing stands in the way of. */
  function WriteState(es: Entries, a: string, secret: Secret, password: string, i: nat): Entries {
    if i == 0 then es
    else if i == 1 then Cleared(es, a)
    else if i == 2 then WithStage(es, a, map[])
    else if i == 3 then WithStage(es, a, map[VaultFile(a) := File(Torn, true, true)])
    else if i == 4 then WithStage(es, a, map[VaultFile(a) := Written(secret, password)])
    else if i == 5 then WithStage(es, a, map[])[VaultFile(a) := Written(secret, password)]
    else Cleared(es, a)[VaultFile(a) := Written(secret, password)]
  }

  // ---- settle --------------------------------------------------------------------------

  /** `Path::exists`, which follows links. */
  predicate Exists(es: Entries, n: string) {
    n in es && !(es[n].Link? && es[n].sight.Dangling?)
  }

  /** A staged vault that reads, with parameters the KDF may be fed. */
  predicate Openable(node: Node) {
    match node
    case File(blob, readable, _) => readable && KdfInRange(blob)
    case Link(_, Sees(blob, readable, _)) => readable && KdfInRange(blob)
    case _ => false
  }

  predicate StagedOpenable(es: Entries, a: string) {
    && StageDir(a) in es && es[StageDir(a)].Dir?
    && VaultFile(a) in es[StageDir(a)].entries
    && Openable(es[StageDir(a)].entries[VaultFile(a)])
  }

  /** The staged copy is all there is, and it opens. */
  predicate Promotes(es: Entries, a: string) {
    StagedOpenable(es, a) && !Exists(es, VaultFile(a))
  }

  function StagedNode(es: Entries, a: string): Node
    requires StagedOpenable(es, a)
  {
    es[StageDir(a)].entries[VaultFile(a)]
  }

  function VaultStagesOf(es: Entries): set<string> {
    set n | n in es && es[n].Dir? && StageName(n).Some? && StageName(n).value.OfVault? :: StageName(n).value.addr
  }

  function ImportStagesOf(es: Entries): set<string> {
    set n | n in es && es[n].Dir? && StageName(n).Some? && StageName(n).value.OfImport? :: StageName(n).value.nonce
  }

  lemma StagesOfExact(es: Entries, a: string)
    ensures a in VaultStagesOf(es) <==> IsAddr(a) && StageDir(a) in es && es[StageDir(a)].Dir?
    ensures a in ImportStagesOf(es) <==> IsNonce(a) && ImportDir(a) in es && es[ImportDir(a)].Dir?
  {
    StageNameExact(StageDir(a), OfVault(a));
    StageNameExact(ImportDir(a), OfImport(a));
    if a in VaultStagesOf(es) {
      var n :| n in es && es[n].Dir? && StageName(n).Some? && StageName(n).value.OfVault? && StageName(n).value.addr == a;
      StageNameExact(n, OfVault(a));
    }
    if a in ImportStagesOf(es) {
      var n :| n in es && es[n].Dir? && StageName(n).Some? && StageName(n).value.OfImport? && StageName(n).value.nonce == a;
      StageNameExact(n, OfImport(a));
    }
  }

  function Gone(imports: set<string>, vaults: set<string>): set<string> {
    (set nonce | nonce in imports :: ImportDir(nonce)) + (set a | a in vaults :: StageDir(a))
  }

  /** The vaults that land, under the names they land at. */
  function Landed(es: Entries, vaults: set<string>): Entries {
    map n | n in (set a | a in vaults :: VaultFile(a))
         && VaultStem(n).Some? && VaultStem(n).value in vaults && Promotes(es, VaultStem(n).value)
         :: StagedNode(es, VaultStem(n).value)
  }

  /** The directory once these stages have been dealt with, and the others not yet. */
  function PartlySettled(es: Entries, imports: set<string>, vaults: set<string>): Entries {
    (es - Gone(imports, vaults)) + Landed(es, vaults)
  }

  function SettledEntries(es: Entries): Entries {
    PartlySettled(es, ImportStagesOf(es), VaultStagesOf(es))
  }

  /** One stage of the loop: promoted where it is the only copy, and removed either way. */
  function SettleVault(es: Entries, a: string): Entries {
    (if Promotes(es, a) then es[VaultFile(a) := StagedNode(es, a)] else es) - {StageDir(a)}
  }

  predicate AllAddrs(vaults: set<string>) {
    forall a :: a in vaults ==> IsAddr(a)
  }

  lemma LandedAt(es: Entries, vaults: set<string>, a: string)
    requires IsAddr(a)
    ensures VaultFile(a) in Landed(es, vaults) <==> a in vaults && Promotes(es, a)
    ensures a in vaults && Promotes(es, a) ==> Landed(es, vaults)[VaultFile(a)] == StagedNode(es, a)
  {
    DistinctNames(a, a, "");
  }

  lemma LandedElsewhere(es: Entries, vaults: set<string>, n: string)
    requires AllAddrs(vaults) && n in Landed(es, vaults)
    ensures VaultStem(n).Some? && IsAddr(VaultStem(n).value) && n == VaultFile(VaultStem(n).value)
  {
    VaultStemExact(n, VaultStem(n).value);
  }

  lemma SettleImportStep(es: Entries, imports: set<string>, nonce: string)
    ensures PartlySettled(es, imports + {nonce}, {}) == PartlySettled(es, imports, {}) - {ImportDir(nonce)}
  {
    assert Gone(imports + {nonce}, {}) == Gone(imports, {}) + {ImportDir(nonce)};
    assert Landed(es, {}) == map[];
  }

  /** Dealing with one more stage is the same, whatever was dealt with before it. */
  lemma SettleVaultStep(es: Entries, imports: set<string>, vaults: set<string>, a: string)
    requires AllAddrs(vaults) && IsAddr(a) && a !in vaults
    ensures PartlySettled(es, imports, vaults + {a}) == SettleVault(PartlySettled(es, imports, vaults), a)
  {
    var now, next := PartlySettled(es, imports, vaults), PartlySettled(es, imports, vaults + {a});
    forall n ensures EntryAt(next, n) == EntryAt(SettleVault(now, a), n) {
      SettleVaultStepAt(es, imports, vaults, a, n);
    }
    SameEntries(next, SettleVault(now, a));
  }

  lemma SettleVaultStepAt(es: Entries, imports: set<string>, vaults: set<string>, a: string, n: string)
    requires AllAddrs(vaults) && IsAddr(a) && a !in vaults
    ensures EntryAt(PartlySettled(es, imports, vaults + {a}), n) == EntryAt(SettleVault(PartlySettled(es, imports, vaults), a), n)
  {
    GoneOneMore(imports, vaults, a);
    StageUntouched(es, imports, vaults, a);
    LandedOneMore(es, vaults, a, n);
  }

  lemma GoneOneMore(imports: set<string>, vaults: set<string>, a: string)
    ensures Gone(imports, vaults + {a}) == Gone(imports, vaults) + {StageDir(a)}
  {
  }

  lemma StageUntouched(es: Entries, imports: set<string>, vaults: set<string>, a: string)
    requires AllAddrs(vaults) && IsAddr(a) && a !in vaults
    ensures
      var now := PartlySettled(es, imports, vaults);
      && (StageDir(a) in now <==> StageDir(a) in es) && (StageDir(a) in es ==> now[StageDir(a)] == es[StageDir(a)])
      && (VaultFile(a) in now <==> VaultFile(a) in es) && (VaultFile(a) in es ==> now[VaultFile(a)] == es[VaultFile(a)])
  {
    forall b ensures b in vaults ==> StageDir(b) != StageDir(a) && StageDir(b) != VaultFile(a) {
      DistinctNames(a, b, "");
    }
    forall nonce ensures ImportDir(nonce) != StageDir(a) && ImportDir(nonce) != VaultFile(a) {
      DistinctNames(a, a, nonce);
    }
    LandedAt(es, vaults, a);
    if StageDir(a) in Landed(es, vaults) {
      LandedElsewhere(es, vaults, StageDir(a));
      DistinctNames(VaultStem(StageDir(a)).value, a, "");
    }
  }

  lemma LandedOneMore(es: Entries, vaults: set<string>, a: string, n: string)
    requires AllAddrs(vaults) && IsAddr(a) && a !in vaults
    ensures n in Landed(es, vaults + {a}) <==> n in Landed(es, vaults) || (n == VaultFile(a) && Promotes(es, a))
    ensures n in Landed(es, vaults) ==>
      && n != VaultFile(a) && n != StageDir(a)
      && Landed(es, vaults + {a})[n] == Landed(es, vaults)[n]
    ensures Promotes(es, a) ==>
      && VaultFile(a) in Landed(es, vaults + {a})
      && Landed(es, vaults + {a})[VaultFile(a)] == StagedNode(es, a)
    ensures VaultFile(a) != StageDir(a)
  {
    LandedAt(es, vaults + {a}, a);
    LandedAt(es, vaults, a);
    DistinctNames(a, a, "");
    if VaultStem(n).Some? {
      var b := VaultStem(n).value;
      VaultStemExact(n, b);
      LandedAt(es, vaults + {a}, b);
      LandedAt(es, vaults, b);
      DistinctNames(b, a, "");
    }
  }

  // ---- the exact effect ----------------------------------------------------------------

  /** What settle leaves at one name. */
  function SettledAt(es: Entries, n: string): Option<Node> {
    if VaultStem(n).Some? && Promotes(es, VaultStem(n).value) then Some(StagedNode(es, VaultStem(n).value))
    else if n !in es then None
    else if es[n].Dir? && StageName(n).Some? && !StageName(n).value.OfGroup? then None
    else Some(es[n])
  }

  function EntryAt(es: Entries, n: string): Option<Node> {
    if n in es then Some(es[n]) else None
  }

  /**
   Exactly the openable staged vaults whose real path does not exist are brought there, every
   vault and import stage is gone with what was in it, and every other entry, existing
   vaults included, is as it was.
   */
  lemma SettleExactly(es: Entries, n: string)
    ensures EntryAt(SettledEntries(es), n) == SettledAt(es, n)
  {
    var imports, vaults := ImportStagesOf(es), VaultStagesOf(es);
    forall a ensures a in vaults ==> IsAddr(a) {
      StagesOfExact(es, a);
    }
    if VaultStem(n).Some? {
      var a := VaultStem(n).value;
      VaultStemExact(n, a);
      LandedAt(es, vaults, a);
      StagesOfExact(es, a);
      NotGone(es, a);
      VaultFilesAreNoStages(a);
    } else {
      assert n !in Landed(es, vaults);
      GoneExactly(es, n);
    }
  }

  /** A file that can be read, or a link to one, with this content. */
  predicate Reads(node: Node, blob: Blob) {
    match node
    case File(b, readable, _) => b == blob && readable
    case Link(_, Sees(b, readable, _)) => b == blob && readable
    case _ => false
  }

  /** A vault that was finished, or text someone else put there whose parameters are within bounds. */
  predicate OpensSafely(blob: Blob) {
    match blob
    case Whole(_, _) => true
    case Torn => false
    case Foreign(_, text, _, kdfInRange) => text && kdfInRange
  }

  /** Nothing is at this name, or a link that leads nowhere. */
  predicate Vacant(es: Entries, n: string) {
    n !in es || (es[n].Link? && es[n].sight.Dangling?)
  }

  /**
   Which staged vaults settle brings to their real path: exactly those under the account's own
   name in its stage that can be read and are a finished vault or in bounds, where nothing is.
   */
  lemma PromotedExactly(es: Entries, a: string)
    requires IsAddr(a)
    ensures
      var stage, vault := ".stage-" + a, a + ".json";
      var staged := if stage in es && es[stage].Dir? && vault in es[stage].entries then Some(es[stage].entries[vault]) else None;
      EntryAt(SettledEntries(es), vault) ==
        if staged.Some? && Vacant(es, vault) && (exists blob :: Reads(staged.value, blob) && OpensSafely(blob)) then staged
        else EntryAt(es, vault)
  {
    SettleExactly(es, VaultFile(a));
    VaultStemExact(VaultFile(a), a);
    if StagedOpenable(es, a) {
      OpenableExactly(StagedNode(es, a));
    } else if StageDir(a) in es && es[StageDir(a)].Dir? && VaultFile(a) in es[StageDir(a)].entries {
      OpenableExactly(es[StageDir(a)].entries[VaultFile(a)]);
    }
  }

  lemma OpenableExactly(node: Node)
    ensures Openable(node) <==> exists blob :: Reads(node, blob) && OpensSafely(blob)
  {
    if Openable(node) {
      var blob := match node { case File(b, _, _) => b case Link(_, Sees(b, _, _)) => b case _ => Torn };
      assert Reads(node, blob) && OpensSafely(blob);
    }
  }

  lemma NotGone(es: Entries, a: string)
    requires IsAddr(a)
    ensures VaultFile(a) !in Gone(ImportStagesOf(es), VaultStagesOf(es))
  {
    forall b ensures b in VaultStagesOf(es) ==> StageDir(b) != VaultFile(a) {
      StagesOfExact(es, b);
      DistinctNames(a, b, "");
    }
    forall nonce ensures ImportDir(nonce) != VaultFile(a) {
      DistinctNames(a, a, nonce);
    }
  }

  lemma GoneExactly(es: Entries, n: string)
    ensures n in Gone(ImportStagesOf(es), VaultStagesOf(es)) <==>
      n in es && es[n].Dir? && StageName(n).Some? && !StageName(n).value.OfGroup?
  {
    forall b ensures b in VaultStagesOf(es) && n == StageDir(b) ==> n in es && es[n].Dir? && StageName(n) == Some(OfVault(b)) {
      StagesOfExact(es, b);
      StageNameExact(StageDir(b), OfVault(b));
    }
    forall b ensures b in ImportStagesOf(es) && n == ImportDir(b) ==> n in es && es[n].Dir? && StageName(n) == Some(OfImport(b)) {
      StagesOfExact(es, b);
      StageNameExact(ImportDir(b), OfImport(b));
    }
    if n in es && es[n].Dir? && StageName(n).Some? && !StageName(n).value.OfGroup? {
      StageNameExact(n, StageName(n).value);
      if StageName(n).value.OfVault? {
        assert StageName(n).value.addr in VaultStagesOf(es);
      } else {
        assert StageName(n).value.nonce in ImportStagesOf(es);
      }
    }
  }

  lemma SameEntries(x: Entries, y: Entries)
    requires forall n :: EntryAt(x, n) == EntryAt(y, n)
    ensures x == y
  {
    forall n ensures n in x <==> n in y {
      assert EntryAt(x, n) == EntryAt(y, n);
    }
    forall n | n in x ensures x[n] == y[n] {
      assert EntryAt(x, n) == EntryAt(y, n);
    }
  }

  lemma NoStageSurvives(es: Entries, a: string)
    ensures a !in VaultStagesOf(SettledEntries(es)) && a !in ImportStagesOf(SettledEntries(es))
  {
    StagesOfExact(SettledEntries(es), a);
    SettleExactly(es, StageDir(a));
    SettleExactly(es, ImportDir(a));
    StageNameExact(StageDir(a), OfVault(a));
    StageNameExact(ImportDir(a), OfImport(a));
    StagesAreNoVaults(a);
  }

  /** A second settle finds nothing to do. */
  lemma SettleConverges(es: Entries)
    ensures VaultStagesOf(SettledEntries(es)) == {} && ImportStagesOf(SettledEntries(es)) == {}
    ensures SettledEntries(SettledEntries(es)) == SettledEntries(es)
  {
    var once := SettledEntries(es);
    forall a ensures a !in VaultStagesOf(once) && a !in ImportStagesOf(once) {
      NoStageSurvives(es, a);
    }
    assert VaultStagesOf(once) == {} && ImportStagesOf(once) == {};
    NothingToSettle(once);
  }

  lemma NothingToSettle(es: Entries)
    ensures PartlySettled(es, {}, {}) == es
  {
    assert Gone({}, {}) == {};
    assert Landed(es, {}) == map[];
  }

  lemma StagesAreNoVaults(a: string)
    ensures VaultStem(StageDir(a)) == None && VaultStem(ImportDir(a)) == None
  {
    if VaultStem(StageDir(a)).Some? {
      VaultStemExact(StageDir(a), VaultStem(StageDir(a)).value);
    }
    if VaultStem(ImportDir(a)).Some? {
      VaultStemExact(ImportDir(a), VaultStem(ImportDir(a)).value);
    }
    assert StageDir(a)[0] == '.' && ImportDir(a)[0] == '.';
  }

  // ---- a kill at any step of a write, then settle --------------------------------------

  /** Where a write killed after `i` steps and then settled leaves the account's vault. */
  function Recovered(es: Entries, a: string, secret: Secret, password: string, i: nat): Option<Node> {
    if i >= RENAME_STEP then Some(Written(secret, password))
    else if i == 4 && !Exists(es, VaultFile(a)) then Some(Written(secret, password))
    else EntryAt(es, VaultFile(a))
  }

  /** What the steps of a write touch: two names, and only as described. */
  lemma WriteStateAt(es: Entries, a: string, secret: Secret, password: string, i: nat)
    requires IsAddr(a) && 0 < i <= WRITE_STEPS
    ensures
      var after := WriteState(es, a, secret, password, i);
      && (forall n :: n != VaultFile(a) && n != StageDir(a) ==> EntryAt(after, n) == EntryAt(es, n))
      && EntryAt(after, VaultFile(a)) == (if i >= RENAME_STEP then Some(Written(secret, password)) else EntryAt(es, VaultFile(a)))
      && (StageDir(a) in after ==> after[StageDir(a)].Dir?)
      && (StagedOpenable(after, a) <==> i == 4)
      && (i == 4 ==> StagedNode(after, a) == Written(secret, password))
  {
    DistinctNames(a, a, "");
  }

  lemma OthersPromoteAlike(es: Entries, a: string, secret: Secret, password: string, i: nat, b: string)
    requires IsAddr(a) && IsAddr(b) && a != b && 0 < i <= WRITE_STEPS
    ensures SettledAt(WriteState(es, a, secret, password, i), VaultFile(b)) == SettledAt(es, VaultFile(b))
  {
    var after := WriteState(es, a, secret, password, i);
    WriteStateAt(es, a, secret, password, i);
    DistinctNames(b, a, "");
    DistinctNames(a, b, "");
    assert EntryAt(after, VaultFile(b)) == EntryAt(es, VaultFile(b)) && EntryAt(after, StageDir(b)) == EntryAt(es, StageDir(b));
    VaultFilesAreNoStages(b);
  }

  /**
   The real path holds what it held or the whole new vault, and no step of the write, however
   far it got, changes what settling does to anything else.
   */
  lemma KilledWriteSettles(es: Entries, a: string, secret: Secret, password: string, i: nat, n: string)
    requires IsAddr(a) && 0 < i <= WRITE_STEPS
    ensures EntryAt(SettledEntries(WriteState(es, a, secret, password, i)), n) ==
      if n == VaultFile(a) then Recovered(es, a, secret, password, i)
      else if n == StageDir(a) then None
      else SettledAt(es, n)
  {
    var after := WriteState(es, a, secret, password, i);
    SettleExactly(after, n);
    WriteStateAt(es, a, secret, password, i);
    if n == VaultFile(a) {
      DistinctNames(a, a, "");
      VaultFilesAreNoStages(a);
    } else if n == StageDir(a) {
      DistinctNames(a, a, "");
      StagesAreNoVaults(a);
    } else if VaultStem(n).Some? {
      VaultStemExact(n, VaultStem(n).value);
      OthersPromoteAlike(es, a, secret, password, i, VaultStem(n).value);
    } else {
      assert EntryAt(after, n) == EntryAt(es, n);
    }
  }

  /** Changing a password: killed anywhere and settled, the vault is the old one until the rename. */
  lemma PasswordChangeIsAtomic(es: Entries, a: string, secret: Secret, old_: string, new_: string, i: nat)
    requires IsAddr(a) && i <= WRITE_STEPS
    requires HoldsVault(es, a, secret, old_)
    ensures EntryAt(SettledEntries(WriteState(es, a, secret, new_, i)), VaultFile(a)) ==
      if i < RENAME_STEP then EntryAt(es, VaultFile(a)) else Some(Written(secret, new_))
    ensures HoldsVault(SettledEntries(WriteState(es, a, secret, new_, i)), a, secret, if i < RENAME_STEP then old_ else new_)
  {
    DistinctNames(a, a, "");
    if i == 0 {
      SettleExactly(es, VaultFile(a));
      VaultFilesAreNoStages(a);
    } else {
      KilledWriteSettles(es, a, secret, new_, i, VaultFile(a));
    }
  }

  /** A first write: killed anywhere once begun and settled, the vault is absent or whole. */
  lemma FirstWriteIsAllOrNothing(es: Entries, a: string, secret: Secret, password: string, i: nat)
    requires IsAddr(a) && 0 < i <= WRITE_STEPS
    requires VaultFile(a) !in es
    ensures EntryAt(SettledEntries(WriteState(es, a, secret, password, i)), VaultFile(a)) ==
      if i < 4 then None else Some(Written(secret, password))
  {
    KilledWriteSettles(es, a, secret, password, i, VaultFile(a));
  }

  // ---- a kill inside settle ------------------------------------------------------------

  lemma {:induction false} RemnantOfRemnant(x: Node, y: Node, z: Node)
    requires Remnant(x, y) && Remnant(y, z)
    ensures Remnant(x, z)
    decreases z
  {
    if x != y && y != z {
      forall n | n in z.entries ensures n in x.entries && Remnant(x.entries[n], z.entries[n]) {
        RemnantOfRemnant(x.entries[n], y.entries[n], z.entries[n]);
      }
    }
  }

  /** Whatever opens in a remnant was there, and opened, before. */
  lemma RemnantOpens(x: Node, y: Node, n: string)
    requires Remnant(x, y) && x.Dir? && y.Dir? && n in y.entries && Openable(y.entries[n])
    ensures n in x.entries && x.entries[n] == y.entries[n]
  {
    if x != y {
      assert Remnant(x.entries[n], y.entries[n]);
    }
  }

  /** A stage that settle removes. */
  predicate Doomed(es: Entries, n: string) {
    n in es && es[n].Dir? && StageName(n).Some? && !StageName(n).value.OfGroup?
  }

  predicate HasLanded(es: Entries, mid: Entries, a: string) {
    StagedOpenable(es, a) && EntryAt(mid, VaultFile(a)) == Some(StagedNode(es, a))
  }

  /** One name, part-way through: a stage is not touched before what it alone holds has landed. */
  ghost predicate MidAt(es: Entries, mid: Entries, n: string) {
    if VaultStem(n).Some? then
      EntryAt(mid, n) == EntryAt(es, n) || (Promotes(es, VaultStem(n).value) && HasLanded(es, mid, VaultStem(n).value))
    else if Doomed(es, n) then
      || EntryAt(mid, n) == Some(es[n])
      || (&& (n !in mid || Remnant(es[n], mid[n]))
          && (StageName(n).value.OfVault? && Promotes(es, StageName(n).value.addr) ==> HasLanded(es, mid, StageName(n).value.addr)))
    else EntryAt(mid, n) == EntryAt(es, n)
  }

  /** A state a kill can leave: between stages in any order, after a rename, or inside a removal. */
  ghost predicate MidSettle(es: Entries, mid: Entries) {
    forall n :: MidAt(es, mid, n)
  }

  /** Part-way, a vault is still to be promoted or has landed, and no other has become so. */
  lemma MidPromotes(es: Entries, mid: Entries, a: string)
    requires MidSettle(es, mid) && IsAddr(a)
    ensures Promotes(mid, a) ==> Promotes(es, a) && StagedNode(mid, a) == StagedNode(es, a)
    ensures Promotes(es, a) ==> Promotes(mid, a) || HasLanded(es, mid, a)
    ensures !Promotes(es, a) ==> EntryAt(mid, VaultFile(a)) == EntryAt(es, VaultFile(a))
    ensures EntryAt(mid, VaultFile(a)) != EntryAt(es, VaultFile(a)) ==> HasLanded(es, mid, a)
  {
    DistinctNames(a, a, "");
    VaultFilesAreNoStages(a);
    StagesAreNoVaults(a);
    assert MidAt(es, mid, VaultFile(a)) && MidAt(es, mid, StageDir(a));
    if StagedOpenable(mid, a) {
      MidOpenable(es, mid, a);
    }
  }

  lemma MidOpenable(es: Entries, mid: Entries, a: string)
    requires MidSettle(es, mid) && IsAddr(a) && StagedOpenable(mid, a)
    ensures StagedOpenable(es, a) && StagedNode(mid, a) == StagedNode(es, a)
  {
    DistinctNames(a, a, "");
    StagesAreNoVaults(a);
    assert MidAt(es, mid, StageDir(a));
    if Doomed(es, StageDir(a)) {
      RemnantOpens(es[StageDir(a)], mid[StageDir(a)], VaultFile(a));
    }
  }

  /** Killed at any point of its own repair, settle finishes it the next time. */
  lemma KilledSettleResumes(es: Entries, mid: Entries)
    requires MidSettle(es, mid)
    ensures SettledEntries(mid) == SettledEntries(es)
  {
    forall n ensures EntryAt(SettledEntries(mid), n) == EntryAt(SettledEntries(es), n) {
      SettleExactly(mid, n);
      SettleExactly(es, n);
      assert MidAt(es, mid, n);
      if VaultStem(n).Some? {
        VaultStemExact(n, VaultStem(n).value);
        MidPromotes(es, mid, VaultStem(n).value);
        VaultFilesAreNoStages(VaultStem(n).value);
      }
    }
    SameEntries(SettledEntries(mid), SettledEntries(es));
  }

  /** The steps of the repair lead from one such state to the next. */
  lemma MidStart(es: Entries)
    ensures MidSettle(es, es)
  {
  }

  lemma MidLanding(es: Entries, mid: Entries, a: string, left: Node)
    requires MidSettle(es, mid) && IsAddr(a) && Promotes(es, a) && Promotes(mid, a) && Remnant(mid[StageDir(a)], left)
    ensures MidSettle(es, mid[StageDir(a) := left][VaultFile(a) := StagedNode(es, a)])
  {
    var next := mid[StageDir(a) := left][VaultFile(a) := StagedNode(es, a)];
    DistinctNames(a, a, "");
    StagesAreNoVaults(a);
    VaultFilesAreNoStages(a);
    assert HasLanded(es, next, a);
    forall n ensures MidAt(es, next, n) {
      assert MidAt(es, mid, n);
      if n == StageDir(a) {
        RemnantOfRemnant(es[n], mid[n], left);
      } else if n != VaultFile(a) {
        OthersMid(es, mid, next, a, n);
      }
    }
  }

  /** What is part-way at one name does not change when another account lands. */
  lemma OthersMid(es: Entries, mid: Entries, next: Entries, a: string, n: string)
    requires MidAt(es, mid, n) && IsAddr(a) && n != VaultFile(a) && n != StageDir(a)
    requires EntryAt(next, n) == EntryAt(mid, n)
    requires forall b :: b != a && IsAddr(b) ==> EntryAt(next, VaultFile(b)) == EntryAt(mid, VaultFile(b))
    ensures MidAt(es, next, n)
  {
    if VaultStem(n).Some? {
      VaultStemExact(n, VaultStem(n).value);
    } else if StageName(n).Some? {
      StageNameExact(n, StageName(n).value);
    }
  }

  lemma MidShrinks(es: Entries, mid: Entries, n: string, left: Option<Node>)
    requires MidSettle(es, mid) && Doomed(es, n) && n in mid && VaultStem(n) == None
    requires left.Some? ==> Remnant(mid[n], left.value)
    requires StageName(n).value.OfVault? && Promotes(es, StageName(n).value.addr) ==> HasLanded(es, mid, StageName(n).value.addr)
    ensures MidSettle(es, if left.Some? then mid[n := left.value] else mid - {n})
  {
    var next := if left.Some? then mid[n := left.value] else mid - {n};
    forall m ensures MidAt(es, next, m) {
      assert MidAt(es, mid, m);
      if m == n && left.Some? {
        RemnantOfRemnant(es[n], mid[n], left.value);
      }
    }
  }

  /** Done with, settle is at such a state too. */
  lemma SettledIsMid(es: Entries)
    ensures MidSettle(es, SettledEntries(es))
  {
    forall n ensures MidAt(es, SettledEntries(es), n) {
      SettleExactly(es, n);
      if VaultStem(n).Some? {
        VaultStemExact(n, VaultStem(n).value);
      } else if Doomed(es, n) && StageName(n).value.OfVault? {
        StageNameExact(n, StageName(n).value);
        var a := StageName(n).value.addr;
        SettleExactly(es, VaultFile(a));
        DistinctNames(a, a, "");
      }
    }
  }

  // ---- a kill while a leftover is cleared ----------------------------------------------

  /**
   A write first removes what an earlier one left. Killed inside that removal and settled, the
   real path is as it was, or holds the leftover it would have been given anyway.
   */
  lemma KilledClearingSettles(es: Entries, a: string, left: Node, n: string)
    requires IsAddr(a) && StageDir(a) in es && es[StageDir(a)].Dir? && Remnant(es[StageDir(a)], left)
    ensures
      var after := SettledEntries(es[StageDir(a) := left]);
      if n == VaultFile(a) then EntryAt(after, n) == EntryAt(es, n) || EntryAt(after, n) == EntryAt(SettledEntries(es), n)
      else EntryAt(after, n) == EntryAt(SettledEntries(es), n)
  {
    var mid := es[StageDir(a) := left];
    SettleExactly(mid, n);
    SettleExactly(es, n);
    DistinctNames(a, a, "");
    StagesAreNoVaults(a);
    if VaultStem(n).Some? {
      VaultStemExact(n, VaultStem(n).value);
      ClearingPromotes(es, a, left, VaultStem(n).value);
      VaultFilesAreNoStages(VaultStem(n).value);
    }
  }

  lemma ClearingPromotes(es: Entries, a: string, left: Node, b: string)
    requires IsAddr(a) && IsAddr(b) && StageDir(a) in es && es[StageDir(a)].Dir? && Remnant(es[StageDir(a)], left)
    ensures
      var mid := es[StageDir(a) := left];
      && EntryAt(mid, VaultFile(b)) == EntryAt(es, VaultFile(b))
      && (Promotes(mid, b) ==> Promotes(es, b) && StagedNode(mid, b) == StagedNode(es, b))
      && (Promotes(es, b) && b != a ==> Promotes(mid, b))
  {
    var mid := es[StageDir(a) := left];
    DistinctNames(b, a, "");
    DistinctNames(a, b, "");
    if StagedOpenable(mid, b) && b == a {
      RemnantOpens(es[StageDir(a)], left, VaultFile(a));
    }
  }

  lemma VaultFilesAreNoStages(a: string)
    requires IsAddr(a)
    ensures StageName(VaultFile(a)) == None
  {
    if StageName(VaultFile(a)).Some? {
      StageNameExact(VaultFile(a), StageName(VaultFile(a)).value);
    }
    assert IsLowerHex(VaultFile(a)[0]);
  }

  // ---- deletion ------------------------------------------------------------------------

  /** `delete_account` removes the vault at its real path and nothing else under the root. */
  function Deleted(es: Entries, a: string): Entries {
    es - {VaultFile(a)}
  }

  /**
   A deleted account stays deleted exactly when no openable copy of it was left staged: the
   next settle takes such a copy for the only one and brings it back.
   */
  lemma DeletionHolds(es: Entries, a: string)
    requires IsAddr(a)
    ensures VaultFile(a) !in SettledEntries(Deleted(es, a)) <==> !StagedOpenable(es, a)
  {
    SettleExactly(Deleted(es, a), VaultFile(a));
    DistinctNames(a, a, "");
  }

  lemma DeletedComesBack(es: Entries, a: string)
    requires IsAddr(a) && StagedOpenable(es, a)
    ensures EntryAt(SettledEntries(Deleted(es, a)), VaultFile(a)) == Some(StagedNode(es, a))
  {
    SettleExactly(Deleted(es, a), VaultFile(a));
    DistinctNames(a, a, "");
  }

  /** The store gets there by itself: a password change killed before its rename, then a deletion. */
  lemma KilledChangeUndoesDeletion(es: Entries, a: string, secret: Secret, new_: string)
    requires IsAddr(a)
    ensures EntryAt(SettledEntries(Deleted(WriteState(es, a, secret, new_, 4), a)), VaultFile(a)) == Some(Written(secret, new_))
  {
    WriteStateAt(es, a, secret, new_, 4);
    DeletedComesBack(WriteState(es, a, secret, new_, 4), a);
  }
}
