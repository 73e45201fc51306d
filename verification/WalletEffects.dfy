/**
 What the wallet calls come to once they are complete, and what undoes what.
 */
module WalletEffects {
  import opened Base
  import opened Text
  import opened Hd
  import Layout
  import opened Wallet
  import opened WalletSteps

  /** The books with one more derived account. */
  function WithAccount(b: Books, id: string, a: string, vault: Vault, p: Provenance, index: Index): Books
    requires id in b.groups
  {
    b.(vaults := b.vaults[a := vault], provenance := b.provenance[a := p], groups := b.groups[id := Bumped(b.groups[id], index)])
  }

  lemma ReplayThree(b: Books, p: Prim, q: Prim, r: Prim)
    ensures Replay(b, [p, q, r]) == Apply(Apply(Apply(b, p), q), r)
  {
    assert [p, q, r] == [p] + ([q] + ([r] + []));
    ReplayCons(b, p, [q] + ([r] + []));
    ReplayCons(Apply(b, p), q, [r] + []);
    ReplayCons(Apply(Apply(b, p), q), r, []);
  }

  lemma PersistedState(env: Crypto, b: Books, id: string, key: nat, path: Bip44Path, password: string)
    requires path.Valid() && id in b.groups
    ensures
      var secret := env.child(key, path.change, path.index);
      Replay(b, PersistDerived(env, id, key, path, password)) ==
      WithAccount(b, id, env.address(secret), Sealed(secret, password), DerivedFrom(id, path), path.index)
  {
    var secret := env.child(key, path.change, path.index);
    var a := env.address(secret);
    ReplayThree(b, PutVault(a, Sealed(secret, password)), PutProvenance(a, DerivedFrom(id, path)), Bump(id, path.index));
  }

  lemma DeletionState(b: Books, a: string, id: string, index: Index)
    requires a in b.provenance && b.provenance[a].index == Some(index) && b.provenance[a].group == id && id != "" && id in b.groups
    ensures Replay(b, [DropVault(a)] + RetireChanges(b, a)) ==
      b.(vaults := b.vaults - {a}, provenance := b.provenance - {a},
         groups := b.groups[id := Bumped(b.groups[id].(retired := b.groups[id].retired + {index}), index)])
  {
    assert [DropVault(a)] + RetireChanges(b, a) == [DropVault(a), DropProvenance(a), RetireIndex(id, index)];
    ReplayThree(b, DropVault(a), DropProvenance(a), RetireIndex(id, index));
  }

  lemma PutThenDrop<V>(m: map<string, V>, a: string, v: V)
    requires a !in m
    ensures m[a := v] - {a} == m
  {
  }

  /**
   Deleting a derived account with its password undoes its derivation, but for the index:
   that stays used up, and is on record as retired.
   */
  lemma DeletingUndoesDeriving(env: Crypto, b: Books, id: string, key: nat, path: Bip44Path, password: string, address: string)
    requires path.Valid() && id in b.groups && id != ""
    requires
      var a := env.address(env.child(key, path.change, path.index));
      ParseAddress(address) == Ok(a) && a !in b.vaults && a !in b.provenance
    ensures
      var x := Replay(b, PersistDerived(env, id, key, path, password));
      var plan := DeletePlan(env, x, address, password);
      var g := b.groups[id];
      && plan.answer == Ok(Deleted(true))
      && Replay(x, plan.changes) == b.(groups := b.groups[id := Bumped(g.(retired := g.retired + {path.index}), path.index)])
  {
    var secret := env.child(key, path.change, path.index);
    var a := env.address(secret);
    PersistedState(env, b, id, key, path, password);
    var x := WithAccount(b, id, a, Sealed(secret, password), DerivedFrom(id, path), path.index);
    DeletionState(x, a, id, path.index);
    PutThenDrop(b.vaults, a, Sealed(secret, password));
    PutThenDrop(b.provenance, a, DerivedFrom(id, path));
  }

  // ---- a landed import -----------------------------------------------------------------

  lemma PublishedState(b: Books, id: string, key: Vault, guard: bool)
    ensures
      var x := Replay(b, WriteGroupVault(id, key, 4, guard));
      && x.keys == b.keys[id := key] && !StagedKey(x, id)
      && x.groups == b.groups && x.names == b.names && x.vaults == b.vaults && x.provenance == b.provenance
  {
    var steps, last := KeySteps(id, key), Try(DropStage(id), guard);
    assert steps[..4] == steps;
    ReplayFour(b, OpenStage(id), TearCopy(id), FillCopy(id, key), Publish(id));
    ReplayConcat(b, steps, [last]);
    assert [last] == [last] + [];
    ReplayCons(Replay(b, steps), last, []);
  }

  lemma NamedState(b: Books, id: string, text: string)
    ensures Apply(b, NameChange(id, text)) ==
      b.(names := if Trim(text) == "" then b.names - {id} else b.names[id := Trim(text)])
  {
  }

  /** What an import has put down before its account. */
  function Founded(b: Books, req: ImportRequest, id: string, nowMs: nat): Books {
    b.(groups := b.groups[id := NewRecord(req, nowMs)],
       names := if Trim(req.groupLabel) == "" then b.names - {id} else b.names[id := Trim(req.groupLabel)])
  }

  /**
   A landed import: its record with the index used up, its name if it has one, its key exactly
   where one was to be kept, under the key's own password and nowhere staged, and the account
   under the account's.
   */
  lemma LandedImport(env: Crypto, b: Books, req: ImportRequest, id: string, nowMs: nat, luck: Luck)
    requires FreshId(b, id) && ImportKeyOf(env, req).Ok?
    ensures
      var (path, key) := ImportKeyOf(env, req).value;
      var secret := env.child(key, path.change, path.index);
      var x := Replay(b, ImportPlan(env, req, id, nowMs, Landed, luck).changes);
      && x.groups == b.groups[id := Bumped(NewRecord(req, nowMs), path.index)]
      && x.names == Founded(b, req, id, nowMs).names
      && x.keys == (if req.storage == Extkey then b.keys[id := Sealed(key, req.groupPassword)] else b.keys)
      && !StagedKey(x, id)
      && x.vaults == b.vaults[env.address(secret) := Sealed(secret, req.password)]
      && x.provenance == b.provenance[env.address(secret) := DerivedFrom(id, path)]
  {
    var (path, key) := ImportKeyOf(env, req).value;
    var founded := Founded(b, req, id, nowMs);
    LandedSteps(env, b, req, id, nowMs, path, key, luck);
    KeyedState(founded, req, id, key, luck.guard);
    PersistedState(env, Replay(founded, KeyPart(req, id, key, 4, luck.guard)), id, key, path, req.password);
  }

  /** The changes of a landed import: founded, then its key part, then its account. */
  lemma LandedSteps(env: Crypto, b: Books, req: ImportRequest, id: string, nowMs: nat, path: Bip44Path, key: nat, luck: Luck)
    requires ImportKeyOf(env, req) == Ok((path, key)) && path.Valid()
    ensures
      Replay(b, ImportPlan(env, req, id, nowMs, Landed, luck).changes) ==
        Replay(Replay(Founded(b, req, id, nowMs), KeyPart(req, id, key, 4, luck.guard)), PersistDerived(env, id, key, path, req.password))
  {
    var record, name := PutGroup(id, NewRecord(req, nowMs)), NameChange(id, req.groupLabel);
    var keys, account := KeyPart(req, id, key, 4, luck.guard), PersistDerived(env, id, key, path, req.password);
    assert ImportPlan(env, req, id, nowMs, Landed, luck).changes == [record] + ([name] + (keys + account));
    ReplayCons(b, record, [name] + (keys + account));
    ReplayCons(Apply(b, record), name, keys + account);
    NamedState(Apply(b, record), id, req.groupLabel);
    ReplayConcat(Founded(b, req, id, nowMs), keys, account);
  }

  lemma KeyedState(b: Books, req: ImportRequest, id: string, key: nat, guard: bool)
    requires !StagedKey(b, id)
    ensures
      var x := Replay(b, KeyPart(req, id, key, 4, guard));
      && x.keys == (if req.storage == Extkey then b.keys[id := Sealed(key, req.groupPassword)] else b.keys) && !StagedKey(x, id)
      && x.groups == b.groups && x.names == b.names && x.vaults == b.vaults && x.provenance == b.provenance
  {
    if req.storage == Extkey {
      PublishedState(b, id, Sealed(key, req.groupPassword), guard);
    }
  }

  // ---- giving a wallet up --------------------------------------------------------------

  /** What forgetting a derivation key leaves, once it has run to its end. */
  lemma ForgottenState(b: Books, id: string, luck: Luck)
    requires Layout.IsGroupId(id) && (id in b.keys || id in b.staged)
    ensures ForgetPlan(b, id, luck).answer.Ok?
    ensures
      var x := Replay(b, ForgetPlan(b, id, luck).changes);
      && id !in x.keys && id !in x.staged && x.provenance == b.provenance && x.vaults == b.vaults && x.names == b.names
      && x.groups.Keys == b.groups.Keys
  {
    var first := if id in b.keys then [DropKey(id)] else [];
    var second := if id in b.staged then [DropStage(id)] else [];
    var last := Try(SetPlain(id), luck.record);
    var b1 := if id in b.keys then Apply(b, DropKey(id)) else b;
    var b2 := if id in b.staged then Apply(b1, DropStage(id)) else b1;
    assert [DropKey(id)] == [DropKey(id)] + [] && [DropStage(id)] == [DropStage(id)] + [] && [last] == [last] + [];
    ReplayConcat(b, first + second, [last]);
    ReplayConcat(b, first, second);
    ReplayCons(b, DropKey(id), []);
    ReplayCons(b1, DropStage(id), []);
    ReplayCons(b2, last, []);
    SetPlainKeeps(b2, id, luck.record);
  }

  lemma SetPlainKeeps(b: Books, id: string, ok: bool)
    ensures
      var x := Apply(b, Try(SetPlain(id), ok));
      && x == b.(groups := x.groups) && x.groups.Keys == b.groups.Keys
  {
  }

  lemma RemovedState(b: Books, id: string)
    requires RemoveGroupPlan(b, id).answer.Ok?
    ensures Replay(b, RemoveGroupPlan(b, id).changes) == b.(groups := b.groups - {id}, names := b.names - {id})
  {
    var first := if id in b.groups then [DropGroup(id)] else [];
    var second := if id in b.names then [DropName(id)] else [];
    var b1 := if id in b.groups then Apply(b, DropGroup(id)) else b;
    assert [DropGroup(id)] == [DropGroup(id)] + [] && [DropName(id)] == [DropName(id)] + [];
    ReplayConcat(b, first, second);
    ReplayCons(b, DropGroup(id), []);
    ReplayCons(b1, DropName(id), []);
    assert id !in b.groups ==> b.groups - {id} == b.groups;
    assert id !in b.names ==> b.names - {id} == b.names;
  }

  /**
   Giving a wallet up leaves no trace: a recorded or named wallet without accounts, its key
   forgotten, can be removed, and its id is then as if never drawn.
   */
  lemma GivenUpWithoutTrace(b: Books, id: string, luck: Luck)
    requires Layout.IsGroupId(id) && AccountsOf(b, id) == {} && (id in b.groups || id in b.names)
    requires id in b.keys || id in b.staged
    ensures
      var x := Replay(b, ForgetPlan(b, id, luck).changes);
      && RemoveGroupPlan(x, id).answer.Ok?
      && FreshId(Replay(x, RemoveGroupPlan(x, id).changes), id)
  {
    ForgottenState(b, id, luck);
    var x := Replay(b, ForgetPlan(b, id, luck).changes);
    assert AccountsOf(x, id) == AccountsOf(b, id);
    RemovedState(x, id);
    assert AccountsOf(Replay(x, RemoveGroupPlan(x, id).changes), id) == AccountsOf(x, id);
  }
}
