/**
 The vault half of the keystore, as it runs: one directory, changed step by step.

 Models `write_vault`, `change_password`, `held_vault`, `use_vault`, `signer_for`, `settle`,
 the vault step of `delete_account`, and `remove_unexplained` of rust-lib/src/keystore.rs.
 `trail` records the directory after every step, so each element is a place a kill can land;
 the removal of a reported path is one step, whatever is under it.
 */
module VaultStore {
  import opened Base
  import opened Text
  import opened Layout
  import opened Tree
  import opened Scan
  import opened Coverage
  import opened Reports
  import opened Removal
  import opened Recovery
  import opened Opening

  // ---- listings ------------------------------------------------------------------------

  /** The root with these entries: what is new is listed, what is gone is not. */
  function Relisted(root: Node, es: Entries): Node
    requires root.Dir?
  {
    Dir(es, (root.shown * es.Keys) + (es.Keys - root.entries.Keys), root.complete, root.writable)
  }

  ghost predicate ValidEntries(es: Entries) {
    forall n :: n in es ==> ValidName(n) && ValidTree(es[n])
  }

  /** What a listing delivers is there, and a complete one delivers everything. */
  predicate Listed(root: Node) {
    root.Dir? && root.shown <= root.entries.Keys && (root.complete ==> root.shown == root.entries.Keys)
  }

  lemma NamesValid(a: string)
    requires IsAddr(a)
    ensures ValidName(VaultFile(a)) && ValidName(StageDir(a))
  {
    assert |VaultFile(a)| == 45 && |StageDir(a)| == 47;
    forall i | 0 <= i < 45 ensures VaultFile(a)[i] != '/' {
      assert i < 40 ==> IsLowerHex(VaultFile(a)[i]);
    }
    forall i | 0 <= i < 47 ensures StageDir(a)[i] != '/' {
      assert i >= 7 ==> StageDir(a)[i] == a[i - 7] && IsLowerHex(a[i - 7]);
    }
  }

  lemma BucketsAreStages(root: Node)
    requires Sound(root)
    ensures In(Walk(root, []), VaultStages) == VaultStagesOf(root.entries)
    ensures In(Walk(root, []), ImportStages) == ImportStagesOf(root.entries)
  {
    forall a
      ensures a in In(Walk(root, []), VaultStages) <==> a in VaultStagesOf(root.entries)
      ensures a in In(Walk(root, []), ImportStages) <==> a in ImportStagesOf(root.entries)
    {
      RootBucketsExact(root, a);
      StagesOfExact(root.entries, a);
    }
  }

  lemma LockIsNoStage(root: Node)
    requires root.Dir?
    ensures VaultStagesOf(Locked(root).entries) == VaultStagesOf(root.entries)
    ensures ImportStagesOf(Locked(root).entries) == ImportStagesOf(root.entries)
  {
  }

  // ---- one write -----------------------------------------------------------------------

  /** Every state of a write the host stops after `allowed` of its four fallible operations. */
  function WriteTrail(es: Entries, a: string, secret: Secret, password: string, allowed: nat, writable: bool): seq<Entries> {
    if !Stageable(es, a) then []
    else if !writable then ClosedTrail(es, a, secret, password, allowed)
    else if allowed < 3 then States(es, a, secret, password, allowed + 1) + (if allowed == 0 then [] else [Cleared(es, a)])
    else if allowed == 3 || !Promotable(es, a) then States(es, a, secret, password, 4) + [Cleared(es, a)]
    else States(es, a, secret, password, WRITE_STEPS)
  }

  /**
   The same in a directory closed to changes. Nothing is created or renamed there, but a stage
   that is left over is emptied, written into, and emptied again.
   */
  function ClosedTrail(es: Entries, a: string, secret: Secret, password: string, allowed: nat): seq<Entries> {
    if StageDir(a) !in es || !es[StageDir(a)].Dir? then []
    else if allowed == 0 then States(es, a, secret, password, 2)[1..]
    else States(es, a, secret, password, if allowed < 3 then allowed + 1 else 4)[1..] + [WriteState(es, a, secret, password, 2)]
  }

  /** The first `n` states of a write. */
  function States(es: Entries, a: string, secret: Secret, password: string, n: nat): (r: seq<Entries>)
    ensures |r| == n
    ensures forall k :: 0 <= k < n ==> r[k] == WriteState(es, a, secret, password, k + 1)
  {
    if n == 0 then [] else States(es, a, secret, password, n - 1) + [WriteState(es, a, secret, password, n)]
  }

  predicate WriteLands(es: Entries, a: string, allowed: nat, writable: bool) {
    writable && Stageable(es, a) && Promotable(es, a) && allowed >= 4
  }

  function LastOf(es: Entries, trail: seq<Entries>): Entries {
    if trail == [] then es else trail[|trail| - 1]
  }

  /** Wherever a kill lands, and however the host refuses, the directory is at a step of the write. */
  lemma EveryStopIsAStep(es: Entries, a: string, secret: Secret, password: string, allowed: nat, writable: bool, k: nat) returns (i: nat)
    requires k < |WriteTrail(es, a, secret, password, allowed, writable)|
    ensures 0 < i <= WRITE_STEPS
    ensures WriteTrail(es, a, secret, password, allowed, writable)[k] == WriteState(es, a, secret, password, i)
    ensures !WriteLands(es, a, allowed, writable) ==> i < RENAME_STEP
  {
    var trail := WriteTrail(es, a, secret, password, allowed, writable);
    if writable {
      i := if !WriteLands(es, a, allowed, writable) && k == |trail| - 1 then 1 else k + 1;
    } else {
      i := if allowed > 0 && k == |trail| - 1 then 2 else k + 2;
    }
  }

  /** Each state follows from the one before it by the one change the step makes. */
  lemma WriteStatesFollow(es: Entries, a: string, secret: Secret, password: string)
    requires IsAddr(a)
    ensures
      var stage, vault := StageDir(a), VaultFile(a);
      && WriteState(es, a, secret, password, 1) == es - {stage}
      && WriteState(es, a, secret, password, 2) == WriteState(es, a, secret, password, 1)[stage := FullDir(map[])]
      && WriteState(es, a, secret, password, 3) ==
           WriteState(es, a, secret, password, 2)[stage := FullDir(map[vault := File(Torn, true, true)])]
      && WriteState(es, a, secret, password, 4) ==
           WriteState(es, a, secret, password, 3)[stage := FullDir(map[vault := Written(secret, password)])]
      && WriteState(es, a, secret, password, 5) ==
           WriteState(es, a, secret, password, 4)[stage := FullDir(map[])][vault := Written(secret, password)]
      && WriteState(es, a, secret, password, 6) == WriteState(es, a, secret, password, 5) - {stage}
  {
    DistinctNames(a, a, "");
  }

  /** A write that stops before its rename drops the stage, and that is all that is left of it. */
  lemma StoppedWriteClears(es: Entries, a: string, secret: Secret, password: string, i: nat)
    requires IsAddr(a) && 0 < i < RENAME_STEP
    ensures WriteState(es, a, secret, password, i) - {StageDir(a)} == Cleared(es, a)
  {
  }

  lemma FromSecond(es: Entries, a: string, secret: Secret, password: string, n: nat)
    requires n >= 2
    ensures States(es, a, secret, password, n)[1..] == [WriteState(es, a, secret, password, 2)] + States(es, a, secret, password, n)[2..]
  {
  }

  lemma EmptiedAgain(es: Entries, a: string, secret: Secret, password: string, i: nat)
    requires 2 <= i < RENAME_STEP
    ensures WriteState(es, a, secret, password, i)[StageDir(a) := FullDir(map[])] == WriteState(es, a, secret, password, 2)
  {
  }

  lemma WriteStateValid(es: Entries, a: string, secret: Secret, password: string, i: nat)
    requires ValidEntries(es) && IsAddr(a)
    ensures ValidEntries(WriteState(es, a, secret, password, i))
  {
    NamesValid(a);
  }

  lemma PromotableThroughout(es: Entries, a: string, secret: Secret, password: string)
    requires IsAddr(a)
    ensures Promotable(WriteState(es, a, secret, password, 4), a) == Promotable(es, a)
    ensures
      var now := WriteState(es, a, secret, password, 4);
      && StageDir(a) in now && now[StageDir(a)].Dir? && VaultFile(a) in now[StageDir(a)].entries
      && now[StageDir(a)].entries[VaultFile(a)] == Written(secret, password)
  {
    DistinctNames(a, a, "");
  }

  // ---- settle --------------------------------------------------------------------------

  datatype Settled = Settled(promoted: set<string>, swept: set<string>, left: Found)

  predicate NeedsSettling(es: Entries) {
    VaultStagesOf(es) != {} || ImportStagesOf(es) != {}
  }

  /** What one settle leaves, where `granted` says no peer holds the lock. */
  function SettledRoot(root: Node, granted: bool): Node
    requires root.Dir?
  {
    if !NeedsSettling(root.entries) || !granted || !LockAvailable(root) then root
    else Relisted(Locked(root), SettledEntries(Locked(root).entries))
  }

  lemma {:induction false} SettledValid(es: Entries)
    requires ValidEntries(es)
    ensures ValidEntries(SettledEntries(es))
  {
    forall n | n in SettledEntries(es) ensures ValidName(n) && ValidTree(SettledEntries(es)[n]) {
      SettleExactly(es, n);
      if VaultStem(n).Some? {
        VaultStemExact(n, VaultStem(n).value);
        NamesValid(VaultStem(n).value);
      }
    }
  }

  // ---- using an account ----------------------------------------------------------------

  /** What using an account leaves: settled once, where the authority named no vault. */
  ghost function Used(root: Option<Node>, a: string, granted: bool): Option<Node> {
    if Held(root, a) == Err(NotFound) && root.Some? && root.value.Dir? then Some(SettledRoot(root.value, granted)) else root
  }

  lemma UsedEntries(root: Option<Node>, a: string)
    requires root.Some? && Sound(root.value) && IsAddr(a) && VaultFile(a) !in root.value.entries
    requires StageDir(a) in root.value.entries && root.value.entries[StageDir(a)].Dir? && LockAvailable(root.value)
    ensures
      var used := Used(root, a, true);
      used.Some? && Sound(used.value) && used.value.entries == SettledEntries(Locked(root.value).entries)
  {
    HeldExactly(root, a);
    StagesOfExact(root.value.entries, a);
    SettledIsSound(root.value);
  }

  lemma SettledIsSound(root: Node)
    requires Sound(root)
    ensures SettledRoot(root, true).Dir? && Sound(SettledRoot(root, true))
  {
    LockedValid(root);
    ValidUnder(Locked(root));
    SettledValid(Locked(root).entries);
    if SettledRoot(root, true) != root {
      ListedAgain(Locked(root), SettledEntries(Locked(root).entries));
    }
  }

  lemma ValidUnder(root: Node)
    requires ValidTree(root) && root.Dir?
    ensures ValidEntries(root.entries)
  {
  }

  lemma ListedAgain(root: Node, es: Entries)
    requires Sound(root) && ValidEntries(es)
    ensures Sound(Relisted(root, es))
  {
  }

  /**
   A vault an interrupted write left staged is found: using the account brings it to its path,
   and it answers there as any vault does, its own password and no other.
   */
  lemma StagedVaultIsUsed(root: Option<Node>, a: string, secret: Secret, password: string, tried: string, addrOf: Secret -> string)
    requires root.Some? && Sound(root.value) && IsAddr(a) && LockAvailable(root.value)
    requires VaultFile(a) !in root.value.entries
    requires StageDir(a) in root.value.entries && root.value.entries[StageDir(a)].Dir?
    requires EntryAt(root.value.entries[StageDir(a)].entries, VaultFile(a)) == Some(Written(secret, password))
    ensures SignerIn(Used(root, a, true), a, tried, addrOf) == Answer(a, secret, password, tried, addrOf)
  {
    var es := Locked(root.value).entries;
    UsedEntries(root, a);
    DistinctNames(a, a, "");
    PromotedExactly(es, a);
    assert Reads(Written(secret, password), Tree.Whole(secret, password)) && OpensSafely(Tree.Whole(secret, password));
    WrittenOpens(Used(root, a, true), a, secret, password, tried, addrOf);
  }

  lemma OpensAsWritten(root: Option<Node>, a: string, secret: Secret, password: string)
    requires IsAddr(a) && (root.Some? ==> ValidTree(root.value))
    requires EntryAt(Under(root), VaultFile(a)) == Some(Written(secret, password))
    ensures Lists(root) ==> forall tried, addrOf {:trigger SignerIn(root, a, tried, addrOf)} ::
      SignerIn(root, a, tried, addrOf) == Answer(a, secret, password, tried, addrOf)
  {
    if Lists(root) {
      forall tried, addrOf ensures SignerIn(root, a, tried, addrOf) == Answer(a, secret, password, tried, addrOf) {
        WrittenOpens(root, a, secret, password, tried, addrOf);
      }
    }
  }

  class Keystore {
    var root: Option<Node>
    ghost var trail: seq<Entries>

    ghost predicate Valid()
      reads this
    {
      root.Some? ==> ValidTree(root.value)
    }

    function Writable(): bool
      reads this
    {
      root.Some? && root.value.Dir? ==> root.value.writable
    }

    function Files(): Entries
      reads this
    {
      if root.Some? && root.value.Dir? then root.value.entries else map[]
    }

    constructor (found: Option<Node>)
      requires found.Some? ==> ValidTree(found.value)
      ensures Valid() && root == found && trail == []
    {
      root := found;
      trail := [];
    }

    predicate Open()
      reads this
    {
      root.Some? && Listed(root.value)
    }

    /** Listed whole, and with this much said of its mode. */
    predicate OpenAs(writable: bool)
      reads this
    {
      Open() && root.value.complete && root.value.writable == writable
    }

    /** One step: the directory comes to hold these entries. */
    method Become(es: Entries)
      requires Open()
      modifies this
      ensures Open() && root == Some(Relisted(old(root).value, es)) && Files() == es
      ensures trail == old(trail) + [es]
    {
      root := Some(Relisted(root.value, es));
      trail := trail + [es];
    }

    method EnsureDir() returns (ok: bool)
      requires Valid()
      modifies this
      ensures Valid() && trail == old(trail) && Files() == old(Files())
      ensures ok <==> old(root).None? || old(root).value.Dir?
      ensures ok ==> Lists(root) == Lists(old(root))
      ensures ok ==> root.Some? && root.value.Dir? && root.value.writable == old(Writable())
      ensures old(root).Some? ==> root == old(root)
    {
      if root.None? {
        root := Some(FullDir(map[]));
      }
      ok := root.value.Dir?;
    }

    /** `write_vault`: staged under the account's own name, and renamed out. */
    method WriteVault(a: string, secret: Secret, password: string, allowed: nat) returns (r: Result<()>)
      requires Valid() && IsAddr(a)
      modifies this
      ensures Valid()
      ensures r.Ok? <==> (old(root).None? || old(root).value.Dir?) && WriteLands(old(Files()), a, allowed, old(Writable()))
      ensures old(root).None? || old(root).value.Dir? ==>
        && trail == old(trail) + WriteTrail(old(Files()), a, secret, password, allowed, old(Writable()))
        && Files() == LastOf(old(Files()), WriteTrail(old(Files()), a, secret, password, allowed, old(Writable())))
      ensures old(root).Some? && !old(root).value.Dir? ==> root == old(root) && trail == old(trail)
      ensures r.Ok? && Lists(old(root)) ==> Lists(root)
      ensures r.Ok? <==>
        && (old(root).None? || old(root).value.Dir?) && old(Writable()) && allowed >= 4
        && (StageDir(a) in old(Files()) ==> old(Files())[StageDir(a)].Dir? || old(Files())[StageDir(a)].Link?)
        && (VaultFile(a) in old(Files()) ==> !old(Files())[VaultFile(a)].Dir?)
      ensures r.Ok? ==> Files() == old(Files())[VaultFile(a) := Written(secret, password)] - {StageDir(a)}
      ensures r.Err? ==> forall n :: n != StageDir(a) ==> EntryAt(Files(), n) == EntryAt(old(Files()), n)
      ensures r.Ok? && Lists(root) ==> forall tried, addrOf {:trigger SignerIn(root, a, tried, addrOf)} ::
        SignerIn(root, a, tried, addrOf) == Answer(a, secret, password, tried, addrOf)
    {
      var ready := EnsureDir();
      if !ready {
        return Err(IoError);
      }
      if !Stageable(root.value.entries, a) {
        return Err(VaultError);
      }
      if root.value.writable {
        ghost var es := Files();
        r := StageAndPromote(a, secret, password, allowed);
        if r.Ok? {
          WriteStateAt(es, a, secret, password, WRITE_STEPS);
          assert Under(root) == Files();
          OpensAsWritten(root, a, secret, password);
        }
      } else if StageDir(a) in root.value.entries && root.value.entries[StageDir(a)].Dir? {
        WriteClosed(a, secret, password, allowed);
        r := Err(VaultError);
      } else {
        r := Err(VaultError);
      }
    }

    /** A write that cannot take its stage away or rename out of it. */
    method WriteClosed(a: string, secret: Secret, password: string, allowed: nat)
      requires Open() && ValidEntries(Files()) && IsAddr(a)
      requires StageDir(a) in Files() && Files()[StageDir(a)].Dir?
      modifies this
      ensures Open() && ValidEntries(Files())
      ensures trail == old(trail) + ClosedTrail(old(Files()), a, secret, password, allowed)
      ensures Files() == LastOf(old(Files()), ClosedTrail(old(Files()), a, secret, password, allowed))
    {
      ghost var es, before := Files(), trail;
      WriteStateValid(es, a, secret, password, 2);
      Become(root.value.entries[StageDir(a) := FullDir(map[])]);
      assert States(es, a, secret, password, 2)[1..] == [WriteState(es, a, secret, password, 2)];
      if allowed == 0 {
        return;
      }
      var _ := EncryptInto(es, a, secret, password, allowed);
      ghost var reached: nat := if allowed < 3 then allowed + 1 else 4;
      FromSecond(es, a, secret, password, reached);
      assert trail == before + States(es, a, secret, password, reached)[1..];
      EmptiedAgain(es, a, secret, password, reached);
      Become(root.value.entries[StageDir(a) := FullDir(map[])]);
    }

    /** The write proper: each refusal of the host drops the stage and ends it there. */
    method StageAndPromote(a: string, secret: Secret, password: string, allowed: nat) returns (r: Result<()>)
      requires Open() && ValidEntries(Files()) && IsAddr(a) && Stageable(Files(), a)
      modifies this
      ensures Lists(root) == old(Lists(root))
      ensures Open() && ValidEntries(Files())
      ensures r.Ok? <==> WriteLands(old(Files()), a, allowed, true)
      ensures trail == old(trail) + WriteTrail(old(Files()), a, secret, password, allowed, true)
      ensures Files() == LastOf(old(Files()), WriteTrail(old(Files()), a, secret, password, allowed, true))
    {
      ghost var es, before := Files(), trail;
      WriteStateValid(es, a, secret, password, 1);
      WriteStateValid(es, a, secret, password, 6);
      var created := CreateStage(es, a, secret, password, allowed);
      if !created {
        assert trail == before + States(es, a, secret, password, 1);
        return Err(VaultError);
      }
      var encrypted := EncryptInto(es, a, secret, password, allowed);
      PromotableThroughout(es, a, secret, password);
      if !encrypted || allowed == 3 || !Promotable(root.value.entries, a) {
        ghost var reached: nat := if allowed < 3 then allowed + 1 else 4;
        assert trail == before + States(es, a, secret, password, reached);
        StoppedWriteClears(es, a, secret, password, reached);
        Drop(StageDir(a));
        return Err(VaultError);
      }
      assert trail == before + States(es, a, secret, password, 4);
      PromoteStage(es, a, secret, password);
      assert trail == before + States(es, a, secret, password, 6);
      return Ok(());
    }

    /** `Stage::promote`: the vault is renamed out, and what is left of the stage removed. */
    method PromoteStage(ghost es: Entries, a: string, ghost secret: Secret, ghost password: string)
      requires Open() && IsAddr(a) && Files() == WriteState(es, a, secret, password, 4)
      modifies this
      ensures Open() && Lists(root) == old(Lists(root))
      ensures Files() == WriteState(es, a, secret, password, WRITE_STEPS)
      ensures trail == old(trail) + [WriteState(es, a, secret, password, 5), WriteState(es, a, secret, password, 6)]
    {
      WriteStatesFollow(es, a, secret, password);
      PromotableThroughout(es, a, secret, password);
      var stage, vault := StageDir(a), VaultFile(a);
      var whole := root.value.entries[stage].entries[vault];
      Become(root.value.entries[stage := FullDir(map[])][vault := whole]);
      Drop(stage);
    }

    /** `Stage::create`: any leftover goes first. */
    method CreateStage(ghost es: Entries, a: string, ghost secret: Secret, ghost password: string, allowed: nat)
      returns (ok: bool)
      requires Open() && IsAddr(a) && Files() == es && Stageable(es, a)
      modifies this
      ensures Lists(root) == old(Lists(root))
      ensures Open() && ok == (allowed > 0)
      ensures trail == old(trail) + States(es, a, secret, password, if ok then 2 else 1)
      ensures Files() == WriteState(es, a, secret, password, if ok then 2 else 1)
    {
      WriteStatesFollow(es, a, secret, password);
      Become(root.value.entries - {StageDir(a)});
      if allowed == 0 {
        assert trail == old(trail) + States(es, a, secret, password, 1);
        return false;
      }
      Become(root.value.entries[StageDir(a) := FullDir(map[])]);
      return true;
    }

    /** `encrypt_key`: created empty at its destination, then filled. */
    method EncryptInto(ghost es: Entries, a: string, secret: Secret, password: string, allowed: nat) returns (ok: bool)
      requires Open() && IsAddr(a) && Files() == WriteState(es, a, secret, password, 2) && allowed > 0
      modifies this
      ensures Lists(root) == old(Lists(root))
      ensures Open() && ok == (allowed > 2)
      ensures
        var reached := if allowed < 3 then allowed + 1 else 4;
        && Files() == WriteState(es, a, secret, password, reached)
        && old(trail) + States(es, a, secret, password, reached)[2..] == trail
    {
      ghost var before := trail;
      WriteStatesFollow(es, a, secret, password);
      if allowed == 1 {
        return false;
      }
      Become(root.value.entries[StageDir(a) := FullDir(map[VaultFile(a) := File(Torn, true, true)])]);
      if allowed == 2 {
        assert States(es, a, secret, password, 3)[2..] == [WriteState(es, a, secret, password, 3)];
        return false;
      }
      Become(root.value.entries[StageDir(a) := FullDir(map[VaultFile(a) := Written(secret, password)])]);
      assert States(es, a, secret, password, 4)[2..] ==
        [WriteState(es, a, secret, password, 3), WriteState(es, a, secret, password, 4)];
      return true;
    }

    /** The stage is removed on every exit the process can take. */
    method Drop(stage: string)
      requires Open()
      modifies this
      ensures Open() && root == Some(Relisted(old(root).value, old(Files()) - {stage}))
      ensures Files() == old(Files()) - {stage} && trail == old(trail) + [Files()]
    {
      Become(root.value.entries - {stage});
    }

    /** `settle`: promote what is the only copy, sweep the rest, report both. */
    method Settle(granted: bool) returns (r: Result<Settled>)
      requires Valid()
      modifies this
      ensures Valid()
      ensures r.Ok? <==> Scanned(old(root)).Ok?
      ensures Scanned(old(root)).Ok? ==>
        root == if old(root).None? then None else Some(SettledRoot(old(root).value, granted))
      ensures Scanned(old(root)).Err? ==> root == old(root)
      ensures r.Ok? ==> Ok(r.value.left) == Scanned(root)
      ensures |old(trail)| <= |trail| && trail[..|old(trail)|] == old(trail)
      ensures forall i :: |old(trail)| <= i < |trail| ==>
        && old(root).Some? && old(root).value.Dir?
        && MidSettle(Locked(old(root).value).entries, trail[i]) && SettledEntries(trail[i]) == Files()
      ensures r.Ok? && (old(root).None? || !granted || !LockAvailable(old(root).value)) ==>
        r.value.promoted == {} && r.value.swept == {}
      ensures r.Ok? && old(root).Some? && granted && LockAvailable(old(root).value) ==>
        && r.value.promoted == (set a | a in VaultStagesOf(old(Files())) && Promotes(old(Files()), a))
        && r.value.swept == Gone(ImportStagesOf(old(Files())), VaultStagesOf(old(Files())))
    {
      var found := RunScan(root);
      if found.Err? {
        return Err(found.error);
      }
      if root.None? {
        return Ok(Settled({}, {}, found.value));
      }
      BucketsAreStages(root.value);
      var imports, vaults := In(found.value, ImportStages), In(found.value, VaultStages);
      var promoted: set<string>, swept: set<string> := {}, {};
      if vaults == {} && imports == {} {
        return Ok(Settled({}, {}, found.value));
      }
      if granted && LockAvailable(root.value) {
        ghost var es, before := Locked(root.value).entries, |trail|;
        promoted, swept := SettleLocked(imports, vaults);
        forall i | before <= i < |trail| ensures SettledEntries(trail[i]) == Files() {
          KilledSettleResumes(es, trail[i]);
        }
      }
      found := RunScan(root);
      return Ok(Settled(promoted, swept, found.value));
    }

    /** The repair itself, under the lock. */
    method SettleLocked(imports: set<string>, vaults: set<string>) returns (promoted: set<string>, swept: set<string>)
      requires Valid() && root.Some? && Sound(root.value) && LockAvailable(root.value)
      requires imports == ImportStagesOf(Files()) && vaults == VaultStagesOf(Files())
      modifies this
      ensures Valid() && root == Some(Relisted(Locked(old(root).value), SettledEntries(Locked(old(root).value).entries)))
      ensures promoted == set a | a in vaults && Promotes(old(Files()), a)
      ensures swept == Gone(imports, vaults)
      ensures MidTrail(Locked(old(root).value).entries, old(trail), trail)
    {
      ghost var before, started := Files(), trail;
      ghost var es, locked := Locked(root.value).entries, Locked(root.value);
      TakeLock();
      SettledValid(es);
      ghost var sofar := trail;
      promoted, swept := Repair(es, imports, vaults);
      MidTrailOn(es, started, sofar, trail);
      SoundByEntries(root.value, Relisted(locked, SettledEntries(es)));
      forall a | a in vaults ensures Promotes(before, a) == Promotes(es, a) {
        LockPromotesAlike(before, a);
      }
    }

    method Repair(ghost es: Entries, imports: set<string>, vaults: set<string>) returns (promoted: set<string>, swept: set<string>)
      requires Open() && root.value.complete && Files() == es
      requires imports == ImportStagesOf(es) && vaults == VaultStagesOf(es)
      modifies this
      ensures OpenAs(old(root.value.writable)) && Files() == SettledEntries(es)
      ensures promoted == set a | a in vaults && Promotes(es, a)
      ensures swept == Gone(imports, vaults)
      ensures MidTrail(es, old(trail), trail)
    {
      NothingToSettle(es);
      MidStart(es);
      forall a | a in vaults ensures IsAddr(a) {
        StagesOfExact(es, a);
      }
      ghost var started := trail;
      var fromImports := SweepImports(es, imports);
      ghost var sofar := trail;
      var fromVaults;
      promoted, fromVaults := SweepVaults(es, imports, vaults);
      swept := fromImports + fromVaults;
      MidTrailOn(es, started, sofar, trail);
    }

    /** The lock file, created where there is none. */
    method TakeLock()
      requires Valid() && root.Some? && Sound(root.value) && LockAvailable(root.value)
      modifies this
      ensures Valid() && root == Some(Locked(old(root).value)) && Sound(root.value) && Open()
      ensures trail == old(trail) + [Files()]
      ensures VaultStagesOf(Files()) == VaultStagesOf(old(Files())) && ImportStagesOf(Files()) == ImportStagesOf(old(Files()))
      ensures MidTrail(Files(), old(trail), trail) && MidSettle(Files(), Files())
    {
      LockedValid(root.value);
      LockIsNoStage(root.value);
      ghost var locked := Locked(root.value);
      Become(Locked(root.value).entries);
      SoundByEntries(root.value, locked);
      MidStart(Files());
    }

    /** Import scratch is only ever swept. */
    method SweepImports(ghost es: Entries, imports: set<string>) returns (swept: set<string>)
      requires Open() && root.value.complete && imports <= ImportStagesOf(es)
      requires Files() == PartlySettled(es, {}, {}) && MidSettle(es, Files())
      modifies this
      ensures OpenAs(old(root.value.writable))
      ensures Files() == PartlySettled(es, imports, {}) && MidSettle(es, Files())
      ensures swept == Gone(imports, {})
      ensures MidTrail(es, old(trail), trail)
    {
      ghost var done: set<string> := {};
      var todo := imports;
      swept := {};
      while todo != {}
        invariant OpenAs(old(root.value.writable))
        invariant done + todo == imports && done !! todo
        invariant Files() == PartlySettled(es, done, {}) && MidSettle(es, Files())
        invariant swept == Gone(done, {})
        invariant MidTrail(es, old(trail), trail)
        decreases todo
      {
        var nonce :| nonce in todo;
        SettleImportStep(es, done, nonce);
        ImportUntouched(es, done, nonce);
        ghost var sofar := trail;
        SweepStage(es, ImportDir(nonce));
        MidTrailOn(es, old(trail), sofar, trail);
        swept := swept + {ImportDir(nonce)};
        assert Gone(done + {nonce}, {}) == Gone(done, {}) + {ImportDir(nonce)};
        todo, done := todo - {nonce}, done + {nonce};
      }
      assert done == imports;
    }

    /** Each vault stage in turn. */
    method SweepVaults(ghost es: Entries, ghost imports: set<string>, vaults: set<string>)
      returns (promoted: set<string>, swept: set<string>)
      requires Open() && root.value.complete && AllAddrs(vaults) && vaults <= VaultStagesOf(es)
      requires Files() == PartlySettled(es, imports, {}) && MidSettle(es, Files())
      modifies this
      ensures OpenAs(old(root.value.writable))
      ensures Files() == PartlySettled(es, imports, vaults)
      ensures promoted == set a | a in vaults && Promotes(es, a)
      ensures swept == Gone({}, vaults)
      ensures MidTrail(es, old(trail), trail)
    {
      promoted, swept := {}, {};
      ghost var done: set<string> := {};
      var todo := vaults;
      assert Gone({}, {}) == {};
      while todo != {}
        invariant OpenAs(old(root.value.writable))
        invariant done + todo == vaults && done !! todo
        invariant Files() == PartlySettled(es, imports, done) && MidSettle(es, Files())
        invariant swept == Gone({}, done)
        invariant promoted == set a | a in done && Promotes(es, a)
        invariant MidTrail(es, old(trail), trail)
        decreases todo
      {
        var a :| a in todo;
        ghost var sofar := trail;
        var landed := SettleNext(es, imports, done, a);
        MidTrailOn(es, old(trail), sofar, trail);
        promoted := if landed then promoted + {a} else promoted;
        swept := swept + {StageDir(a)};
        GoneOneMore({}, done, a);
        todo, done := todo - {a}, done + {a};
      }
      assert done == vaults;
    }

    /** One turn of that loop. */
    method SettleNext(ghost es: Entries, ghost imports: set<string>, ghost done: set<string>, a: string) returns (landed: bool)
      requires Open() && root.value.complete && AllAddrs(done) && a in VaultStagesOf(es) && a !in done
      requires Files() == PartlySettled(es, imports, done) && MidSettle(es, Files())
      modifies this
      ensures OpenAs(old(root.value.writable))
      ensures Files() == PartlySettled(es, imports, done + {a}) && MidSettle(es, Files())
      ensures landed == Promotes(es, a)
      ensures MidTrail(es, old(trail), trail)
    {
      VaultTurn(es, imports, done, a);
      landed := SettleOne(es, a);
    }

    /** One stage: promoted if it is the only copy and opens, and removed either way. */
    method SettleOne(ghost es: Entries, a: string) returns (landed: bool)
      requires Open() && root.value.complete && IsAddr(a)
      requires MidSettle(es, Files()) && Promotes(Files(), a) == Promotes(es, a)
      requires StageDir(a) in Files() && Files()[StageDir(a)].Dir? && StageDir(a) in es && es[StageDir(a)].Dir?
      modifies this
      ensures OpenAs(old(root.value.writable))
      ensures Files() == SettleVault(old(Files()), a) && MidSettle(es, Files())
      ensures landed == Promotes(old(Files()), a)
      ensures MidTrail(es, old(trail), trail)
    {
      DistinctNames(a, a, "");
      StagesAreNoVaults(a);
      ghost var before, started := Files(), trail;
      landed := Promotes(root.value.entries, a);
      if landed {
        MidPromotes(es, before, a);
        var staged := StagedNode(root.value.entries, a);
        var stage := root.value.entries[StageDir(a)];
        var left := Relisted(stage, stage.entries - {VaultFile(a)});
        MidLanding(es, before, a, left);
        Become(root.value.entries[StageDir(a) := left][VaultFile(a) := staged]);
        assert MidTrail(es, started, trail);
      }
      ghost var sofar := trail;
      SweepStage(es, StageDir(a));
      MidTrailOn(es, started, sofar, trail);
      assert Files() == SettleVault(before, a);
    }

    /** `remove_dir_all` of one stage: what is in it goes first, in any order, one at a time. */
    method SweepStage(ghost es: Entries, n: string)
      requires Open() && root.value.complete && MidSettle(es, Files())
      requires Doomed(es, n) && VaultStem(n) == None && n in Files() && Files()[n].Dir?
      requires StageName(n).value.OfVault? && Promotes(es, StageName(n).value.addr) ==> HasLanded(es, Files(), StageName(n).value.addr)
      modifies this
      ensures OpenAs(old(root.value.writable))
      ensures Files() == old(Files()) - {n} && MidSettle(es, Files())
      ensures MidTrail(es, old(trail), trail)
    {
      ghost var before := Files();
      var todo := root.value.entries[n].entries.Keys;
      while todo != {}
        invariant OpenAs(old(root.value.writable)) && MidSettle(es, Files())
        invariant n in Files() && Files()[n].Dir? && todo <= Files()[n].entries.Keys
        invariant Files() - {n} == before - {n}
        invariant MidTrail(es, old(trail), trail)
        decreases todo
      {
        var name :| name in todo;
        var stage := root.value.entries[n];
        var left := Relisted(stage, stage.entries - {name});
        LandedStays(es, before, Files(), n);
        MidShrinks(es, Files(), n, Some(left));
        ghost var now := Files();
        Become(root.value.entries[n := left]);
        assert Files() - {n} == now - {n};
        todo := todo - {name};
      }
      LandedStays(es, before, Files(), n);
      MidShrinks(es, Files(), n, None);
      assert Files() - {n} == before - {n};
      Become(root.value.entries - {n});
    }

    /** `held_vault`: the vault the authority names for this address. */
    method HeldVault(a: string) returns (r: Result<()>)
      requires Valid()
      ensures r == Held(root, a)
    {
      var found := RunScan(root);
      if found.Err? {
        return Err(found.error);
      }
      if a in In(found.value, Vaults) {
        return Ok(());
      }
      if VaultFile(a) in In(found.value, UnexplainedPaths) + In(found.value, PossibleKeys) {
        return Err(Refused);
      }
      return Err(NotFound);
    }

    /** `use_vault`: the authority's answer, settling once where it names no vault. */
    method UseVault(a: string, granted: bool) returns (r: Result<()>)
      requires Valid()
      modifies this
      ensures Valid() && r == Held(root, a)
      ensures root == Used(old(root), a, granted)
      ensures Held(old(root), a) != Err(NotFound) ==> trail == old(trail)
    {
      r := HeldVault(a);
      if r != Err(NotFound) {
        return;
      }
      var _ := Settle(granted);
      r := HeldVault(a);
    }

    /** `signer_for`: only a vault the authority names, opened, and holding this account's key. */
    method SignerFor(a: string, password: string, addrOf: Secret -> string, granted: bool) returns (r: Result<Secret>)
      requires Valid() && IsAddr(a)
      modifies this
      ensures Valid() && root == Used(old(root), a, granted) && r == SignerIn(root, a, password, addrOf)
      ensures forall secret {:trigger HoldsOwn(root, a, secret, password, addrOf)} ::
        r == Ok(secret) <==> HoldsOwn(root, a, secret, password, addrOf)
      ensures r == Err(Refused) <==> HoldsAnothers(root, a, password, addrOf)
      ensures r == Err(NotFound) <==> Lists(root) && VaultFile(a) !in Files()
      ensures r.Ok? ==> HoldsVault(Files(), a, r.value, password) && root.Some? && root.value.Dir?
    {
      var held := UseVault(a, granted);
      OwnOpens(root, a, password, addrOf);
      SignerExactly(root, a, password, addrOf, Secret(0));
      if held.Err? {
        return Err(held.error);
      }
      RootBucketsExact(root.value, a);
      r := Opened(root.value.entries[VaultFile(a)], password, a, addrOf);
    }

    /**
     `change_password`: a wrong password fails before the vault is touched, and from the first
     step of the rewrite to the last the real path holds the old vault or the new one, whole.
     */
    method ChangePassword(a: string, addrOf: Secret -> string, old_: string, new_: string, granted: bool, allowed: nat)
      returns (r: Result<()>, ghost secret: Secret, ghost begun: nat)
      requires Valid() && IsAddr(a)
      modifies this
      ensures Valid()
      ensures
        var used := Used(old(root), a, granted);
        var signer := SignerIn(used, a, old_, addrOf);
        && (r.Ok? <==> signer.Ok? && used.Some? && used.value.Dir? && WriteLands(used.value.entries, a, allowed, used.value.writable))
        && (signer.Err? ==> root == used)
        && (signer.Ok? ==> secret == signer.value)
      ensures
        var used := Used(old(root), a, granted);
        r.Ok? <==> HoldsOwn(used, a, secret, old_, addrOf) && used.Some? && WriteLands(Under(used), a, allowed, used.value.writable)
      ensures forall own {:trigger HoldsOwn(Used(old(root), a, granted), a, own, old_, addrOf)} ::
        HoldsOwn(Used(old(root), a, granted), a, own, old_, addrOf) ==> secret == own
      ensures r.Ok? ==> EntryAt(Files(), VaultFile(a)) == Some(Written(secret, new_)) && addrOf(secret) == a
      ensures r.Ok? ==> forall tried ::
        SignerIn(root, a, tried, addrOf) == if tried == new_ then Ok(secret) else Err(VaultError)
      ensures begun <= |trail|
      ensures forall i :: begun <= i < |trail| ==>
        HoldsVault(trail[i], a, secret, old_) || HoldsVault(trail[i], a, secret, new_)
      ensures r.Err? && begun < |trail| ==> HoldsVault(Files(), a, secret, old_)
    {
      secret := Secret(0);
      var signer := SignerFor(a, old_, addrOf, granted);
      OwnOpens(root, a, old_, addrOf);
      begun := |trail|;
      if signer.Err? {
        return Err(signer.error), secret, begun;
      }
      secret := signer.value;
      ghost var es := Files();
      ghost var open_ := Writable();
      ghost var steps := WriteTrail(es, a, secret, new_, allowed, open_);
      r := WriteVault(a, signer.value, new_, allowed);
      forall k | 0 <= k < |steps|
        ensures HoldsVault(steps[k], a, secret, old_) || HoldsVault(steps[k], a, secret, new_)
        ensures !WriteLands(es, a, allowed, open_) ==> HoldsVault(steps[k], a, secret, old_)
      {
        var i := EveryStopIsAStep(es, a, secret, new_, allowed, open_, k);
        WriteStateAt(es, a, secret, new_, i);
      }
      DistinctNames(a, a, "");
    }

    /** The vault step of `delete_account`: password and identity first, then the file. */
    method DeleteVault(a: string, password: string, addrOf: Secret -> string, granted: bool) returns (r: Result<bool>)
      requires Valid() && IsAddr(a)
      modifies this
      ensures Valid()
      ensures
        var used := Used(old(root), a, granted);
        var signer := SignerIn(used, a, password, addrOf);
        && (Held(used, a) == Err(NotFound) ==> r == Ok(false))
        && (Held(used, a) != Err(NotFound) && signer.Err? ==> r == Err(signer.error))
        && (signer.Err? ==> root == used)
        && (signer.Ok? ==> used.Some? && used.value.Dir?)
        && (signer.Ok? && !used.value.writable ==> r == Err(IoError) && root == used)
        && (signer.Ok? && used.value.writable ==> r == Ok(true) && Files() == used.value.entries - {VaultFile(a)})
      ensures r == Ok(true) && old(VaultFile(a) in Files()) ==> Files() == Deleted(old(Files()), a)
      ensures
        var used := Used(old(root), a, granted);
        r == Ok(true) <==> used.Some? && used.value.Dir? && used.value.writable && exists own :: HoldsOwn(used, a, own, password, addrOf)
    {
      ghost var before := Files();
      var held := UseVault(a, granted);
      OwnOpens(root, a, password, addrOf);
      if held == Err(NotFound) {
        return Ok(false);
      }
      if held.Err? {
        return Err(held.error);
      }
      RootBucketsExact(root.value, a);
      var signer := Opened(root.value.entries[VaultFile(a)], password, a, addrOf);
      if signer.Err? {
        return Err(signer.error);
      }
      if !root.value.writable {
        return Err(IoError);
      }
      if VaultFile(a) in before {
        HeldStays(old(root), a);
      }
      Become(root.value.entries - {VaultFile(a)});
      return Ok(true);
    }

    /**
     `remove_unexplained`, where no peer holds the lock. `left` is what is left of what was
     named, where the removal is refused.
     */
    method RemoveUnexplained(rel: string, acknowledge: bool) returns (r: Result<bool>, ghost left: Node)
      requires Valid() && root.Some? && root.value.Dir?
      modifies this
      ensures Valid() && root.Some?
      ensures (root.value, r) == RemoveReported(old(root).value, rel, acknowledge, left)
      ensures Leaves(old(root).value, rel, left)
      ensures r.Err? && r != Err(IoError) ==> root == old(root) && trail == old(trail)
      ensures r == Ok(false) ==> trail == old(trail) + [Files()]
      ensures r == Ok(true) || r == Err(IoError) ==>
        root.value.Dir? && trail == old(trail) + [Locked(old(root).value).entries, Files()]
    {
      left := LeftAnyhow(root.value, rel);
      var found := RunScan(root);
      if found.Err? {
        return Err(found.error), left;
      }
      if rel !in UnexplainedAll(found.value) {
        return Err(NotFound), left;
      }
      if !acknowledge {
        return Err(Refused), left;
      }
      var path := ResolveReported(rel);
      if path.None? {
        return Err(InvalidParams), left;
      }
      if !LockAvailable(root.value) {
        return Err(Refused), left;
      }
      ReportedExact(rel, path.value);
      TakeLock();
      var node := Lookup(root.value, path.value);
      if node.Some? {
        PathNamesValid(root.value, path.value);
      }
      var rest;
      r, rest := RemovePath(node, Loose(root.value, path.value));
      if node.None? {
        return;
      }
      if rest.Some? {
        left := rest.value;
        LeftValid(node.value, left);
      }
      LeaveAtValid(root.value, path.value, rest);
      root := Some(LeaveAt(root.value, path.value, rest));
      trail := trail + [Files()];
    }
  }

  lemma LeftAnyhow(root: Node, rel: string) returns (left: Node)
    requires root.Dir?
    ensures Leaves(root, rel, left)
  {
    var path := Reported(rel);
    left := root;
    if path.Some? && Lookup(Locked(root), path.value).Some? {
      left := SomethingIsLeft(Lookup(Locked(root), path.value).value);
    }
  }

  /** What was pushed since is all part-way through settling `es`. */
  ghost predicate MidTrail(es: Entries, before: seq<Entries>, after: seq<Entries>) {
    && |before| <= |after| && after[..|before|] == before
    && forall i :: |before| <= i < |after| ==> MidSettle(es, after[i])
  }

  lemma MidTrailOn(es: Entries, before: seq<Entries>, mid: seq<Entries>, after: seq<Entries>)
    requires MidTrail(es, before, mid) && MidTrail(es, mid, after)
    ensures MidTrail(es, before, after)
  {
    assert after[..|before|] == after[..|mid|][..|before|];
    forall i | |before| <= i < |after| ensures MidSettle(es, after[i]) {
      assert i < |mid| ==> after[..|mid|][i] == after[i];
    }
  }

  /** Shrinking a stage leaves what landed where it is. */
  lemma LandedStays(es: Entries, x: Entries, y: Entries, n: string)
    requires StageName(n).Some? && VaultStem(n) == None && x - {n} == y - {n}
    ensures StageName(n).value.OfVault? && HasLanded(es, x, StageName(n).value.addr) ==> HasLanded(es, y, StageName(n).value.addr)
  {
    StageNameExact(n, StageName(n).value);
    if StageName(n).value.OfVault? {
      var v := VaultFile(StageName(n).value.addr);
      DistinctNames(StageName(n).value.addr, StageName(n).value.addr, "");
      assert v in x <==> v in x - {n};
      assert v in y <==> v in y - {n};
      assert v in x ==> (x - {n})[v] == x[v];
      assert v in y ==> (y - {n})[v] == y[v];
    }
  }

  /** An import stage is where it was until its turn comes. */
  lemma ImportUntouched(es: Entries, done: set<string>, nonce: string)
    requires nonce in ImportStagesOf(es) && nonce !in done
    ensures
      var now := PartlySettled(es, done, {});
      && ImportDir(nonce) in now && now[ImportDir(nonce)] == es[ImportDir(nonce)] && es[ImportDir(nonce)].Dir?
      && Doomed(es, ImportDir(nonce)) && StageName(ImportDir(nonce)) == Some(OfImport(nonce)) && VaultStem(ImportDir(nonce)) == None
  {
    StagesOfExact(es, nonce);
    StageNameExact(ImportDir(nonce), OfImport(nonce));
    StagesAreNoVaults(nonce);
    forall other ensures other in done ==> ImportDir(other) != ImportDir(nonce) {
      assert ImportDir(other)[7..] == IMPORT_INFIX + other && ImportDir(nonce)[7..] == IMPORT_INFIX + nonce;
      assert (IMPORT_INFIX + other)[|IMPORT_INFIX|..] == other && (IMPORT_INFIX + nonce)[|IMPORT_INFIX|..] == nonce;
    }
    assert Landed(es, {}) == map[];
  }

  lemma LockPromotesAlike(es: Entries, a: string)
    requires a in VaultStagesOf(es)
    ensures Promotes(es[LOCK := LOCK_FILE], a) == Promotes(es, a)
  {
    StagesOfExact(es, a);
    DistinctNames(a, a, "");
  }

  /** What one turn of the loop over vault stages rests on. */
  lemma VaultTurn(es: Entries, imports: set<string>, done: set<string>, a: string)
    requires AllAddrs(done) && a in VaultStagesOf(es) && a !in done
    ensures IsAddr(a) && StageDir(a) in es && es[StageDir(a)].Dir?
    ensures
      var now := PartlySettled(es, imports, done);
      && SettleVault(now, a) == PartlySettled(es, imports, done + {a}) && Promotes(now, a) == Promotes(es, a)
      && StageDir(a) in now && now[StageDir(a)].Dir?
  {
    StagesOfExact(es, a);
    SettleVaultStep(es, imports, done, a);
    PromotesInPart(es, imports, done, a);
    StageUntouched(es, imports, done, a);
  }

  lemma PromotesInPart(es: Entries, imports: set<string>, vaults: set<string>, a: string)
    requires AllAddrs(vaults) && IsAddr(a) && a !in vaults
    ensures Promotes(PartlySettled(es, imports, vaults), a) == Promotes(es, a)
  {
    StageUntouched(es, imports, vaults, a);
  }

  /** A complete listing is decided by its entries. */
  lemma SoundByEntries(x: Node, y: Node)
    requires Listed(x) && x.complete && Listed(y) && y.complete
    requires x.entries == y.entries && x.writable == y.writable
    ensures x == y
  {
  }
}
