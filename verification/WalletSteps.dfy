/**
 What each wallet call keeps at every step, kills included.
 */
module WalletSteps {
  import opened Base
  import opened Text
  import opened Hd
  import opened Wallet

  lemma {:induction false} ReplayConcat(b: Books, xs: seq<Prim>, ys: seq<Prim>)
    ensures Replay(b, xs + ys) == Replay(Replay(b, xs), ys)
    decreases |xs|
  {
    if xs == [] {
      assert xs + ys == ys;
    } else {
      ReplayConcat(Apply(b, xs[0]), xs[1..], ys);
      assert (xs + ys)[1..] == xs[1..] + ys && (xs + ys)[0] == xs[0];
    }
  }

  // ---- a record before a key -----------------------------------------------------------

  /** Every derivation key on disk has a record, or already had none. */
  ghost predicate NoNewStrays(was: Books, b: Books) {
    forall id :: Keyed(b, id) && id !in b.groups ==> Keyed(was, id) && id !in was.groups
  }

  /** A change that puts no key where there is no record, and takes no record from a key. */
  predicate Safe(b: Books, p: Prim) {
    match p
    case TearCopy(id) => id in b.groups
    case FillCopy(id, _) => id in b.groups
    case DropGroup(id) => !Keyed(b, id)
    case _ => true
  }

  predicate SafeRun(b: Books, ps: seq<Prim>)
    decreases |ps|
  {
    ps != [] ==> Safe(b, ps[0]) && SafeRun(Apply(b, ps[0]), ps[1..])
  }

  lemma SafeStep(was: Books, b: Books, p: Prim)
    requires NoNewStrays(was, b) && Safe(b, p)
    ensures NoNewStrays(was, Apply(b, p))
  {
    var x := Apply(b, p);
    forall id | Keyed(x, id) && id !in x.groups
      ensures Keyed(b, id) && id !in b.groups
    {
    }
  }

  lemma {:induction false} SafePrefix(was: Books, b: Books, ps: seq<Prim>, n: nat)
    requires NoNewStrays(was, b) && SafeRun(b, ps) && n <= |ps|
    ensures NoNewStrays(was, Replay(b, ps[..n]))
    decreases n
  {
    if n > 0 {
      SafeStep(was, b, ps[0]);
      SafePrefix(was, Apply(b, ps[0]), ps[1..], n - 1);
      assert ps[..n][1..] == ps[1..][..n - 1];
    }
  }

  lemma {:induction false} SafeConcat(b: Books, xs: seq<Prim>, ys: seq<Prim>)
    requires SafeRun(b, xs) && SafeRun(Replay(b, xs), ys)
    ensures SafeRun(b, xs + ys)
    decreases |xs|
  {
    if xs == [] {
      assert xs + ys == ys;
    } else {
      SafeConcat(Apply(b, xs[0]), xs[1..], ys);
      assert (xs + ys)[1..] == xs[1..] + ys && (xs + ys)[0] == xs[0];
    }
  }

  /** Changes an import makes on its way forward: all about its own id, and its record stays. */
  predicate Forward(p: Prim, id: string) {
    match p
    case PutGroup(x, _) => x == id
    case Bump(x, _) => x == id
    case PutName(x, _) => x == id
    case DropName(x) => x == id
    case OpenStage(x) => x == id
    case TearCopy(x) => x == id
    case FillCopy(x, _) => x == id
    case Publish(x) => x == id
    case DropStage(x) => x == id
    case PutVault(_, _) => true
    case PutProvenance(_, _) => true
    case Skip => true
    case _ => false
  }

  predicate AllForward(ps: seq<Prim>, id: string) {
    forall i :: 0 <= i < |ps| ==> Forward(ps[i], id)
  }

  lemma ForwardConcat(xs: seq<Prim>, ys: seq<Prim>, id: string)
    requires AllForward(xs, id) && AllForward(ys, id)
    ensures AllForward(xs + ys, id)
  {
  }

  lemma KeyPartIsForward(req: ImportRequest, id: string, key: nat, done: nat, guard: bool)
    ensures AllForward(KeyPart(req, id, key, done, guard), id)
  {
  }

  lemma AccountIsForward(env: Crypto, id: string, key: nat, path: Bip44Path, password: string, n: nat)
    requires path.Valid() && n <= 3
    ensures AllForward(PersistDerived(env, id, key, path, password)[..n], id)
  {
  }

  lemma LandingIsForward(env: Crypto, req: ImportRequest, id: string, path: Bip44Path, key: nat, reached: Reached, guard: bool)
    requires path.Valid()
    ensures AllForward(Landing(env, req, id, path, key, reached, guard), id)
  {
    var account := PersistDerived(env, id, key, path, req.password);
    var name := [NameChange(id, req.groupLabel)];
    assert AllForward(name, id);
    var keys := KeyPart(req, id, key, 4, guard);
    KeyPartIsForward(req, id, key, 4, guard);
    match reached {
      case AtRecord =>
      case AtName =>
      case AtKey(done) => KeyPartIsForward(req, id, key, if done < 4 then done else 3, guard);
      case AtAccount(done) =>
        var n := if done < 3 then done else 2;
        AccountIsForward(env, id, key, path, req.password, n);
        ForwardConcat(keys, account[..n], id);
      case Landed =>
        AccountIsForward(env, id, key, path, req.password, 3);
        assert account[..3] == account;
        ForwardConcat(keys, account, id);
    }
  }

  lemma ImportGoesForward(env: Crypto, req: ImportRequest, id: string, nowMs: nat, path: Bip44Path, key: nat,
                          reached: Reached, luck: Luck)
    requires path.Valid()
    ensures AllForward(ImportForward(env, req, id, nowMs, path, key, reached, luck), id)
  {
    LandingIsForward(env, req, id, path, key, reached, luck.guard);
  }

  lemma {:induction false} RecordedIsSafe(b: Books, ps: seq<Prim>, id: string)
    requires id in b.groups && AllForward(ps, id)
    ensures SafeRun(b, ps) && id in Replay(b, ps).groups
    decreases |ps|
  {
    if ps != [] {
      assert Forward(ps[0], id);
      RecordedIsSafe(Apply(b, ps[0]), ps[1..], id);
    }
  }

  /** Changes that stage no key at all. */
  predicate Harmless(ps: seq<Prim>) {
    forall i :: 0 <= i < |ps| ==> !ps[i].TearCopy? && !ps[i].FillCopy? && !ps[i].DropGroup?
  }

  lemma {:induction false} HarmlessIsSafe(b: Books, ps: seq<Prim>)
    requires Harmless(ps)
    ensures SafeRun(b, ps)
    decreases |ps|
  {
    if ps != [] {
      HarmlessIsSafe(Apply(b, ps[0]), ps[1..]);
    }
  }

  lemma WalkIsHarmless(env: Crypto, held: set<string>, id: string, key: nat, account: nat, change: nat, password: string,
                       start: Index, offset: nat)
    ensures Harmless(Walk(env, held, id, key, account, change, password, start, offset).changes)
    decreases MAX_INDEX_SCAN - offset
  {
    if offset < MAX_INDEX_SCAN {
      WalkIsHarmless(env, held, id, key, account, change, password, start, offset + 1);
    }
  }

  lemma RollbackIsSafe(b: Books, id: string, luck: Luck)
    requires luck.key && luck.stage
    ensures SafeRun(b, Rollback(id, luck))
  {
    var b1 := Apply(b, DropKey(id));
    var b2 := Apply(b1, DropStage(id));
    var b3 := Apply(b2, Try(DropName(id), luck.name));
    assert !Keyed(b3, id);
    var ps := Rollback(id, luck);
    assert ps[1..][1..][1..][1..] == [];
    assert SafeRun(Apply(b3, ps[3]), []);
    assert SafeRun(b3, ps[1..][1..][1..]);
  }

  lemma ForwardIsSafe(env: Crypto, b: Books, req: ImportRequest, id: string, nowMs: nat, path: Bip44Path, key: nat,
                      reached: Reached, luck: Luck)
    requires path.Valid()
    ensures SafeRun(b, ImportForward(env, req, id, nowMs, path, key, reached, luck))
  {
    var ps := ImportForward(env, req, id, nowMs, path, key, reached, luck);
    if ps != [] {
      ImportGoesForward(env, req, id, nowMs, path, key, reached, luck);
      assert ps[0] == PutGroup(id, NewRecord(req, nowMs));
      RecordedIsSafe(Apply(b, ps[0]), ps[1..], id);
    }
  }

  lemma ImportIsSafe(env: Crypto, b: Books, req: ImportRequest, id: string, nowMs: nat, reached: Reached, luck: Luck)
    requires luck.key && luck.stage
    ensures SafeRun(b, ImportPlan(env, req, id, nowMs, reached, luck).changes)
  {
    var opening := ImportKeyOf(env, req);
    if opening.Ok? {
      var (path, key) := opening.value;
      var ps := ImportForward(env, req, id, nowMs, path, key, reached, luck);
      ForwardIsSafe(env, b, req, id, nowMs, path, key, reached, luck);
      var back := if TurnsBack(reached) then Rollback(id, luck) else [];
      if TurnsBack(reached) {
        RollbackIsSafe(Replay(b, ps), id, luck);
      }
      SafeConcat(b, ps, back);
    }
  }

  lemma RemoveGroupIsSafe(b: Books, id: string)
    ensures SafeRun(b, RemoveGroupPlan(b, id).changes)
  {
    var ps := RemoveGroupPlan(b, id).changes;
    if ps != [] {
      assert Harmless(ps[1..]);
      HarmlessIsSafe(Apply(b, ps[0]), ps[1..]);
    }
  }

  lemma DeriveNextIsHarmless(env: Crypto, b: Books, group: Option<string>, groupPassword: string, password: string, change: nat)
    ensures Harmless(DeriveNextPlan(env, b, group, groupPassword, password, change).changes)
  {
    var g := DerivableGroup(b, group);
    if g.Ok? && OpenGroupKey(b, g.value.0, groupPassword).Ok? && g.value.0 in b.groups {
      WalkIsHarmless(env, b.vaults.Keys, g.value.0, OpenGroupKey(b, g.value.0, groupPassword).value, g.value.1,
                     change, password, NextIndex(b, g.value.0, b.groups[g.value.0]), 0);
    }
  }

  lemma OtherCallsAreSafe(env: Crypto, b: Books, c: Call, reached: Reached, luck: Luck)
    requires !c.ImportMnemonic? && !c.RemoveGroup?
    ensures SafeRun(b, PlanOf(env, b, c, reached, luck).changes)
  {
    var ps := PlanOf(env, b, c, reached, luck).changes;
    match c {
      case DeriveNext(group, groupPassword, password, change) =>
        DeriveNextIsHarmless(env, b, group, groupPassword, password, change);
      case DeriveAt(_, _, _, _, _, _) =>
      case ImportKey(_, _, _) =>
      case DeleteAccount(_, _) =>
      case ForgetDerivation(_) =>
      case SetGroupLabel(_, _, _, _) =>
    }
    HarmlessIsSafe(b, ps);
  }

  /**
   The record is down before the key and goes after it: wherever any call is stopped, as long
   as its removals go through, every derivation key on disk, live or staged, has a record or
   had none before.
   */
  lemma RecordBeforeKey(env: Crypto, b: Books, c: Call, reached: Reached, luck: Luck, n: nat)
    requires luck.key && luck.stage && n <= |PlanOf(env, b, c, reached, luck).changes|
    ensures NoNewStrays(b, Replay(b, PlanOf(env, b, c, reached, luck).changes[..n]))
  {
    match c {
      case ImportMnemonic(req, id, nowMs) => ImportIsSafe(env, b, req, id, nowMs, reached, luck);
      case RemoveGroup(id) => RemoveGroupIsSafe(b, id);
      case _ => OtherCallsAreSafe(env, b, c, reached, luck);
    }
    SafePrefix(b, b, PlanOf(env, b, c, reached, luck).changes, n);
  }

  // ---- a failed import -----------------------------------------------------------------

  /** The same, apart from one wallet. */
  predicate SameApartFrom(b: Books, x: Books, id: string) {
    && b.groups - {id} == x.groups - {id} && b.names - {id} == x.names - {id}
    && b.keys - {id} == x.keys - {id} && b.staged - {id} == x.staged - {id}
  }

  lemma ForwardStep(b: Books, p: Prim, id: string)
    requires Forward(p, id)
    ensures SameApartFrom(b, Apply(b, p), id)
  {
    var x := Apply(b, p);
    assert b.groups - {id} == x.groups - {id};
    assert b.names - {id} == x.names - {id};
    assert b.keys - {id} == x.keys - {id};
    assert b.staged - {id} == x.staged - {id};
  }

  lemma {:induction false} ForwardRun(b: Books, ps: seq<Prim>, id: string)
    requires AllForward(ps, id)
    ensures SameApartFrom(b, Replay(b, ps), id)
    decreases |ps|
  {
    if ps != [] {
      assert Forward(ps[0], id);
      ForwardStep(b, ps[0], id);
      ForwardRun(Apply(b, ps[0]), ps[1..], id);
    }
  }

  lemma ReplayCons(b: Books, p: Prim, rest: seq<Prim>)
    ensures Replay(b, [p] + rest) == Replay(Apply(b, p), rest)
  {
    assert ([p] + rest)[1..] == rest;
  }

  lemma ReplayFour(b: Books, p: Prim, q: Prim, r: Prim, s: Prim)
    ensures Replay(b, [p, q, r, s]) == Apply(Apply(Apply(Apply(b, p), q), r), s)
  {
    assert [p, q, r, s] == [p] + ([q] + ([r] + ([s] + [])));
    ReplayCons(b, p, [q] + ([r] + ([s] + [])));
    ReplayCons(Apply(b, p), q, [r] + ([s] + []));
    ReplayCons(Apply(Apply(b, p), q), r, [s] + []);
    ReplayCons(Apply(Apply(Apply(b, p), q), r), s, []);
  }

  lemma Dropped(b: Books, id: string, ok: bool)
    ensures Apply(b, Try(DropKey(id), ok)) == b.(keys := if ok then b.keys - {id} else b.keys)
    ensures Apply(b, Try(DropStage(id), ok)) == b.(staged := if ok then b.staged - {id} else b.staged)
  {
  }

  lemma Erased(b: Books, id: string, ok: bool)
    ensures Apply(b, Try(DropName(id), ok)) == b.(names := if ok then b.names - {id} else b.names)
    ensures Apply(b, Try(DropGroup(id), ok)) == b.(groups := if ok then b.groups - {id} else b.groups)
  {
  }

  lemma RollbackState(b: Books, id: string, luck: Luck)
    ensures
      var x := Replay(b, Rollback(id, luck));
      && x.keys == (if luck.key then b.keys - {id} else b.keys)
      && x.staged == (if luck.stage then b.staged - {id} else b.staged)
      && x.names == (if luck.name then b.names - {id} else b.names)
      && x.groups == (if luck.record then b.groups - {id} else b.groups)
  {
    var p, q, r, s := Try(DropKey(id), luck.key), Try(DropStage(id), luck.stage), Try(DropName(id), luck.name), Try(DropGroup(id), luck.record);
    ReplayFour(b, p, q, r, s);
    Dropped(b, id, luck.key);
    Dropped(Apply(b, p), id, luck.stage);
    Erased(Apply(Apply(b, p), q), id, luck.name);
    Erased(Apply(Apply(Apply(b, p), q), r), id, luck.record);
  }

  lemma AbsentIsUnchanged<V>(m: map<string, V>, x: map<string, V>, id: string)
    requires m - {id} == x - {id} && id !in m && id !in x
    ensures m == x
  {
    assert m - {id} == m && x - {id} == x;
  }

  /** A failed import whose rollback goes through leaves no record, name, key or stage of its id. */
  lemma FailedImportLeavesNothing(env: Crypto, b: Books, req: ImportRequest, id: string, nowMs: nat, reached: Reached, luck: Luck)
    requires FreshId(b, id) && reached != Landed
    requires luck.key && luck.stage && luck.name && luck.record
    ensures
      var x := Replay(b, ImportPlan(env, req, id, nowMs, reached, luck).changes);
      x.groups == b.groups && x.names == b.names && x.keys == b.keys && x.staged == b.staged
  {
    var opening := ImportKeyOf(env, req);
    if opening.Ok? && reached != AtRecord {
      var (path, key) := opening.value;
      var ps := ImportForward(env, req, id, nowMs, path, key, reached, luck);
      ImportGoesForward(env, req, id, nowMs, path, key, reached, luck);
      ForwardRun(b, ps, id);
      var mid := Replay(b, ps);
      RollbackState(mid, id, luck);
      ReplayConcat(b, ps, Rollback(id, luck));
      var x := Replay(mid, Rollback(id, luck));
      AbsentIsUnchanged(b.groups, x.groups, id);
      AbsentIsUnchanged(b.names, x.names, id);
      AbsentIsUnchanged(b.keys, x.keys, id);
      AbsentIsUnchanged(b.staged, x.staged, id);
    }
  }

  /** Changes that touch no key and no staging directory. */
  predicate KeysAside(p: Prim) {
    !p.OpenStage? && !p.TearCopy? && !p.FillCopy? && !p.Publish? && !p.DropStage? && !p.DropKey?
  }

  lemma KeysAsideStep(b: Books, p: Prim)
    requires KeysAside(p)
    ensures Apply(b, p).keys == b.keys && Apply(b, p).staged == b.staged
  {
  }

  lemma {:induction false} KeysAsideRun(b: Books, ps: seq<Prim>)
    requires forall i :: 0 <= i < |ps| ==> KeysAside(ps[i])
    ensures Replay(b, ps).keys == b.keys && Replay(b, ps).staged == b.staged
    decreases |ps|
  {
    if ps != [] {
      KeysAsideStep(b, ps[0]);
      KeysAsideRun(Apply(b, ps[0]), ps[1..]);
    }
  }

  lemma KeyStepsState(b: Books, id: string, key: Vault, done: nat)
    requires id !in b.keys && 0 < done <= 4
    ensures
      var x := Replay(b, KeySteps(id, key)[..done]);
      && (id in x.keys <==> done == 4)
      && id in x.staged && x.staged[id] == (if done == 1 || done == 4 then NoCopy else if done == 2 then TornCopy else FullCopy(key))
  {
    var p1, p2, p3, p4 := OpenStage(id), TearCopy(id), FillCopy(id, key), Publish(id);
    var b1 := Apply(b, p1);
    var b2 := Apply(b1, p2);
    var b3 := Apply(b2, p3);
    if done == 1 {
      assert KeySteps(id, key)[..1] == [p1] + [];
      ReplayCons(b, p1, []);
    } else if done == 2 {
      assert KeySteps(id, key)[..2] == [p1] + ([p2] + []);
      ReplayCons(b, p1, [p2] + []);
      ReplayCons(b1, p2, []);
    } else if done == 3 {
      assert KeySteps(id, key)[..3] == [p1] + ([p2] + ([p3] + []));
      ReplayCons(b, p1, [p2] + ([p3] + []));
      ReplayCons(b1, p2, [p3] + []);
      ReplayCons(b2, p3, []);
    } else {
      assert KeySteps(id, key)[..4] == [p1, p2, p3, p4];
      ReplayFour(b, p1, p2, p3, p4);
    }
  }

  lemma KeyPartState(b: Books, req: ImportRequest, id: string, key: nat, done: nat, guard: bool)
    requires id !in b.keys && id !in b.staged && done <= 4
    ensures
      var x := Replay(b, KeyPart(req, id, key, done, guard));
      && (id in x.keys <==> req.storage == Extkey && done == 4)
      && (StagedKey(x, id) <==> req.storage == Extkey && 2 <= done < 4 && !guard)
  {
    if req.storage == Extkey && done > 0 {
      var steps := KeySteps(id, Sealed(key, req.groupPassword))[..done];
      var last := Try(DropStage(id), guard);
      KeyStepsState(b, id, Sealed(key, req.groupPassword), done);
      ReplayConcat(b, steps, [last]);
      assert [last] == [last] + [];
      ReplayCons(Replay(b, steps), last, []);
    }
  }

  lemma NameThenKeys(b: Books, name: Prim, req: ImportRequest, id: string, key: nat, done: nat, guard: bool, rest: seq<Prim>)
    requires done <= 4 && id !in b.keys && id !in b.staged && KeysAside(name)
    requires forall i :: 0 <= i < |rest| ==> KeysAside(rest[i])
    ensures
      var x := Replay(b, [name] + (KeyPart(req, id, key, done, guard) + rest));
      && (id in x.keys <==> req.storage == Extkey && done == 4)
      && (StagedKey(x, id) <==> req.storage == Extkey && 2 <= done < 4 && !guard)
  {
    var keys := KeyPart(req, id, key, done, guard);
    ReplayCons(b, name, keys + rest);
    KeysAsideStep(b, name);
    ReplayConcat(Apply(b, name), keys, rest);
    KeyPartState(Apply(b, name), req, id, key, done, guard);
    KeysAsideRun(Replay(Apply(b, name), keys), rest);
  }

  /** Where an import that turns back had its key. */
  lemma ForwardKeys(env: Crypto, b: Books, req: ImportRequest, id: string, nowMs: nat, path: Bip44Path, key: nat,
                    reached: Reached, luck: Luck)
    requires path.Valid() && FreshId(b, id) && TurnsBack(reached)
    ensures
      var x := Replay(b, ImportForward(env, req, id, nowMs, path, key, reached, luck));
      && (id in x.keys <==> req.storage == Extkey && reached.AtAccount?)
      && (StagedKey(x, id) <==> req.storage == Extkey && reached.AtKey? && reached.done >= 2 && !luck.guard)
  {
    var account := PersistDerived(env, id, key, path, req.password);
    var record, name := PutGroup(id, NewRecord(req, nowMs)), NameChange(id, req.groupLabel);
    KeysAsideStep(b, record);
    ReplayCons(b, record, Landing(env, req, id, path, key, reached, luck.guard));
    match reached {
      case AtName =>
      case AtKey(done) =>
        var n := if done < 4 then done else 3;
        var keys := KeyPart(req, id, key, n, luck.guard);
        assert keys + [] == keys;
        NameThenKeys(Apply(b, record), name, req, id, key, n, luck.guard, []);
      case AtAccount(done) =>
        assert KeysAside(account[0]) && KeysAside(account[1]);
        NameThenKeys(Apply(b, record), name, req, id, key, 4, luck.guard, account[..if done < 3 then done else 2]);
    }
  }

  /**
   A failed import leaves a derivation key without a record exactly when the record went but
   a removal of the key did not: the live one, or the staged copy and its guard.
   */
  lemma WhenAFailedImportStrands(env: Crypto, b: Books, req: ImportRequest, id: string, nowMs: nat, reached: Reached, luck: Luck)
    requires FreshId(b, id) && ImportKeyOf(env, req).Ok? && TurnsBack(reached)
    ensures
      var x := Replay(b, ImportPlan(env, req, id, nowMs, reached, luck).changes);
      (Keyed(x, id) && id !in x.groups <==>
        && luck.record && req.storage == Extkey
        && ((reached.AtAccount? && !luck.key) || (reached.AtKey? && reached.done >= 2 && !luck.guard && !luck.stage)))
  {
    var (path, key) := ImportKeyOf(env, req).value;
    var ps := ImportForward(env, req, id, nowMs, path, key, reached, luck);
    ForwardKeys(env, b, req, id, nowMs, path, key, reached, luck);
    ForwardIsSafe(env, b, req, id, nowMs, path, key, reached, luck);
    ForwardRecords(env, b, req, id, nowMs, path, key, reached, luck);
    RollbackState(Replay(b, ps), id, luck);
    ReplayConcat(b, ps, Rollback(id, luck));
  }

  lemma ForwardRecords(env: Crypto, b: Books, req: ImportRequest, id: string, nowMs: nat, path: Bip44Path, key: nat,
                       reached: Reached, luck: Luck)
    requires path.Valid() && reached != AtRecord
    ensures id in Replay(b, ImportForward(env, req, id, nowMs, path, key, reached, luck)).groups
  {
    var ps := ImportForward(env, req, id, nowMs, path, key, reached, luck);
    ImportGoesForward(env, req, id, nowMs, path, key, reached, luck);
    assert ps[0] == PutGroup(id, NewRecord(req, nowMs));
    RecordedIsSafe(Apply(b, ps[0]), ps[1..], id);
  }

  // ---- the next index ------------------------------------------------------------------

  function Position(start: Index, offset: nat): Index {
    Saturating(start + offset)
  }

  /** The address at a position of the walk, where the path is one this keystore derives. */
  predicate HeldAt(env: Crypto, held: set<string>, key: nat, account: nat, change: nat, index: Index) {
    NewPath(account, change, index).Ok? && env.address(env.child(key, change, index)) in held
  }

  predicate FreeAt(env: Crypto, held: set<string>, key: nat, account: nat, change: nat, index: Index) {
    NewPath(account, change, index).Ok? && env.address(env.child(key, change, index)) !in held
  }

  /** The first free position from `from`, all those before it being held. */
  ghost predicate FirstFree(env: Crypto, held: set<string>, key: nat, account: nat, change: nat, start: Index, from: nat, o: nat) {
    && from <= o < MAX_INDEX_SCAN
    && FreeAt(env, held, key, account, change, Position(start, o))
    && forall k :: from <= k < o ==> HeldAt(env, held, key, account, change, Position(start, k))
  }

  /** `derive_next_account` takes exactly the first free index, and refuses when there is none in reach. */
  lemma {:induction false} WalkTakesTheFirstFree(env: Crypto, held: set<string>, id: string, key: nat, account: nat, change: nat,
                                                 password: string, start: Index, offset: nat)
    ensures
      var answer := Walk(env, held, id, key, account, change, password, start, offset).answer;
      && (answer.Ok? <==> exists o: nat :: FirstFree(env, held, key, account, change, start, offset, o))
      && (forall o: nat :: FirstFree(env, held, key, account, change, start, offset, o) ==>
           answer == Ok(DerivedReply(env, id, key, Bip44Path(account, change, Position(start, o)))))
    decreases MAX_INDEX_SCAN - offset
  {
    if offset < MAX_INDEX_SCAN {
      var index := Position(start, offset);
      if HeldAt(env, held, key, account, change, index) {
        WalkTakesTheFirstFree(env, held, id, key, account, change, password, start, offset + 1);
        forall o: nat
          ensures FirstFree(env, held, key, account, change, start, offset, o)
            <==> FirstFree(env, held, key, account, change, start, offset + 1, o)
        {
          assert HeldAt(env, held, key, account, change, Position(start, offset));
        }
        var next := offset + 1;
        if o: nat :| FirstFree(env, held, key, account, change, start, next, o) {
          assert FirstFree(env, held, key, account, change, start, offset, o);
        }
      } else if FreeAt(env, held, key, account, change, index) {
        assert FirstFree(env, held, key, account, change, start, offset, offset);
        forall o: nat | FirstFree(env, held, key, account, change, start, offset, o)
          ensures o == offset
        {
          assert o > offset ==> HeldAt(env, held, key, account, change, Position(start, offset));
        }
      } else {
        forall o: nat ensures !FirstFree(env, held, key, account, change, start, offset, o) {
          assert o > offset && FirstFree(env, held, key, account, change, start, offset, o) ==>
            HeldAt(env, held, key, account, change, Position(start, offset));
        }
      }
    }
  }

  /** What a walk returns is free, and every index below it from where it began is held. */
  lemma WalkTakesTheLeast(env: Crypto, held: set<string>, id: string, key: nat, account: nat, change: nat, password: string,
                          start: Index, first: nat)
    ensures
      var answer := Walk(env, held, id, key, account, change, password, start, first).answer;
      answer.Ok? ==>
        && answer.value.Derived? && answer.value.group == id && Position(start, first) <= answer.value.index < HARDENED
        && answer.value.address !in held
        && forall i: Index :: Position(start, first) <= i < answer.value.index ==> HeldAt(env, held, key, account, change, i)
  {
    WalkTakesTheFirstFree(env, held, id, key, account, change, password, start, first);
    if o: nat :| FirstFree(env, held, key, account, change, start, first, o) {
      var index := Position(start, o);
      forall i: Index | Position(start, first) <= i < index
        ensures HeldAt(env, held, key, account, change, i)
      {
        assert HeldAt(env, held, key, account, change, Position(start, i - start));
      }
    }
  }

  /** The call itself: it starts at the group's next index and takes the least free one from there on. */
  lemma DeriveNextTakesTheLeastFree(env: Crypto, b: Books, group: Option<string>, groupPassword: string, password: string, change: nat)
    requires DerivableGroup(b, group).Ok? && DerivableGroup(b, group).value.0 in b.groups
    requires OpenGroupKey(b, DerivableGroup(b, group).value.0, groupPassword).Ok?
    ensures
      var (id, account) := DerivableGroup(b, group).value;
      var key, start := OpenGroupKey(b, id, groupPassword).value, NextIndex(b, id, b.groups[id]);
      var answer := DeriveNextPlan(env, b, group, groupPassword, password, change).answer;
      && (answer.Ok? <==> exists o: nat :: FirstFree(env, b.vaults.Keys, key, account, change, start, 0, o))
      && (answer.Ok? ==>
           && answer.value.Derived? && answer.value.group == id && start <= answer.value.index < HARDENED
           && answer.value.address !in b.vaults
           && forall i: Index :: start <= i < answer.value.index ==> HeldAt(env, b.vaults.Keys, key, account, change, i))
  {
    var (id, account) := DerivableGroup(b, group).value;
    var key, start := OpenGroupKey(b, id, groupPassword).value, NextIndex(b, id, b.groups[id]);
    WalkTakesTheFirstFree(env, b.vaults.Keys, id, key, account, change, password, start, 0);
    WalkTakesTheLeast(env, b.vaults.Keys, id, key, account, change, password, start, 0);
  }

  /** Only the last vault of a walk is written, and it was not held. */
  predicate Spares(ps: seq<Prim>, held: set<string>) {
    forall i :: 0 <= i < |ps| ==>
      && (ps[i].PutVault? ==> ps[i].addr !in held)
      && !ps[i].DropVault? && !ps[i].DropProvenance?
      && (ps[i].PutProvenance? ==> ps[i].addr !in held)
  }

  lemma {:induction false} WalkSpares(env: Crypto, held: set<string>, id: string, key: nat, account: nat, change: nat,
                                      password: string, start: Index, offset: nat)
    ensures Spares(Walk(env, held, id, key, account, change, password, start, offset).changes, held)
    decreases MAX_INDEX_SCAN - offset
  {
    if offset < MAX_INDEX_SCAN {
      WalkSpares(env, held, id, key, account, change, password, start, offset + 1);
    }
  }

  /** What vault and what provenance an address has. */
  function VaultOf(b: Books, a: string): Option<Vault> {
    if a in b.vaults then Some(b.vaults[a]) else None
  }

  function ProvenanceOf(b: Books, a: string): Option<Provenance> {
    if a in b.provenance then Some(b.provenance[a]) else None
  }

  lemma SparedStep(b: Books, p: Prim, held: set<string>, a: string)
    requires Spares([p], held) && a in held
    ensures VaultOf(Apply(b, p), a) == VaultOf(b, a)
    ensures a in b.provenance ==> ProvenanceOf(Apply(b, p), a) == ProvenanceOf(b, a)
  {
    assert [p][0] == p;
  }

  lemma {:induction false} SparedRun(b: Books, ps: seq<Prim>, held: set<string>, a: string)
    requires Spares(ps, held) && a in held
    ensures VaultOf(Replay(b, ps), a) == VaultOf(b, a)
    ensures a in b.provenance ==> ProvenanceOf(Replay(b, ps), a) == ProvenanceOf(b, a)
    decreases |ps|
  {
    if ps != [] {
      SparedStep(b, ps[0], held, a);
      SparedRun(Apply(b, ps[0]), ps[1..], held, a);
    }
  }

  /** The books once one held account has been walked past. */
  function Noted(env: Crypto, b: Books, id: string, key: nat, path: Bip44Path): Books
    requires path.Valid()
  {
    Apply(Apply(b, FillProvenance(env.address(env.child(key, path.change, path.index)), DerivedFrom(id, path))), Bump(id, path.index))
  }

  lemma NotedProvenance(env: Crypto, b: Books, id: string, key: nat, path: Bip44Path, a: string)
    requires path.Valid()
    ensures ProvenanceOf(Noted(env, b, id, key, path), a) ==
      if ProvenanceOf(b, a).None? && a == env.address(env.child(key, path.change, path.index))
      then Some(DerivedFrom(id, path)) else ProvenanceOf(b, a)
  {
  }

  lemma WalkPasses(env: Crypto, b: Books, held: set<string>, id: string, key: nat, account: nat, change: nat, password: string,
                   start: Index, offset: nat)
    requires offset < MAX_INDEX_SCAN && HeldAt(env, held, key, account, change, Position(start, offset))
    ensures
      var path := Bip44Path(account, change, Position(start, offset));
      Replay(b, Walk(env, held, id, key, account, change, password, start, offset).changes) ==
      Replay(Noted(env, b, id, key, path), Walk(env, held, id, key, account, change, password, start, offset + 1).changes)
  {
    var path := Bip44Path(account, change, Position(start, offset));
    var fill := FillProvenance(env.address(env.child(key, change, path.index)), DerivedFrom(id, path));
    var bump := Bump(id, path.index);
    var rest := Walk(env, held, id, key, account, change, password, start, offset + 1).changes;
    assert [fill, bump] + rest == [fill] + ([bump] + rest);
    ReplayCons(b, fill, [bump] + rest);
    ReplayCons(Apply(b, fill), bump, rest);
  }

  /** On record in `now`: as before, or for this wallet where nothing was. */
  predicate OnRecord(b: Books, now: Books, a: string, id: string) {
    && a in now.provenance
    && if a in b.provenance then ProvenanceOf(now, a) == ProvenanceOf(b, a) else now.provenance[a].group == id
  }

  lemma WalkNotesTheFirst(env: Crypto, b: Books, held: set<string>, id: string, key: nat, account: nat, change: nat,
                          password: string, start: Index, offset: nat)
    requires offset < MAX_INDEX_SCAN && HeldAt(env, held, key, account, change, Position(start, offset))
    ensures OnRecord(b, Replay(b, Walk(env, held, id, key, account, change, password, start, offset).changes),
                     env.address(env.child(key, change, Position(start, offset))), id)
  {
    var path := Bip44Path(account, change, Position(start, offset));
    var a := env.address(env.child(key, change, path.index));
    WalkPasses(env, b, held, id, key, account, change, password, start, offset);
    NotedProvenance(env, b, id, key, path, a);
    WalkSpares(env, held, id, key, account, change, password, start, offset + 1);
    SparedRun(Noted(env, b, id, key, path), Walk(env, held, id, key, account, change, password, start, offset + 1).changes, held, a);
  }

  /** Held accounts that are walked past end up recorded: as they were, or as this wallet's. */
  lemma {:induction false} WalkNotesWhatItPasses(env: Crypto, b: Books, held: set<string>, id: string, key: nat, account: nat,
                                                 change: nat, password: string, start: Index, offset: nat, k: nat)
    requires offset <= k < MAX_INDEX_SCAN
    requires forall m :: offset <= m <= k ==> HeldAt(env, held, key, account, change, Position(start, m))
    ensures OnRecord(b, Replay(b, Walk(env, held, id, key, account, change, password, start, offset).changes),
                     env.address(env.child(key, change, Position(start, k))), id)
    decreases k - offset
  {
    assert HeldAt(env, held, key, account, change, Position(start, offset));
    if k == offset {
      WalkNotesTheFirst(env, b, held, id, key, account, change, password, start, offset);
    } else {
      var path := Bip44Path(account, change, Position(start, offset));
      WalkPasses(env, b, held, id, key, account, change, password, start, offset);
      NotedProvenance(env, b, id, key, path, env.address(env.child(key, change, Position(start, k))));
      WalkNotesWhatItPasses(env, Noted(env, b, id, key, path), held, id, key, account, change, password, start, offset + 1, k);
    }
  }

  /**
   Whatever the sidecars hold and wherever it is stopped, `derive_next_account` replaces no
   vault the scan names and rewrites no provenance of one.
   */
  lemma DeriveNextReplacesNothing(env: Crypto, b: Books, group: Option<string>, groupPassword: string, password: string,
                                  change: nat, n: nat, a: string)
    requires n <= |DeriveNextPlan(env, b, group, groupPassword, password, change).changes| && a in b.vaults
    ensures
      var x := Replay(b, DeriveNextPlan(env, b, group, groupPassword, password, change).changes[..n]);
      && VaultOf(x, a) == VaultOf(b, a)
      && (a in b.provenance ==> ProvenanceOf(x, a) == ProvenanceOf(b, a))
  {
    var ps := DeriveNextPlan(env, b, group, groupPassword, password, change).changes;
    var g := DerivableGroup(b, group);
    if ps != [] {
      var (id, account) := g.value;
      WalkSpares(env, b.vaults.Keys, id, OpenGroupKey(b, id, groupPassword).value, account, change, password,
                 NextIndex(b, id, b.groups[id]), 0);
    }
    assert Spares(ps[..n], b.vaults.Keys);
    SparedRun(b, ps[..n], b.vaults.Keys, a);
  }
}
