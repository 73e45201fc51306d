/**
 The effective next index of a wallet: where it never decreases, and exactly when it does.
 */
module WalletIndices {
  import opened Base
  import opened Hd
  import opened Wallet
  import opened WalletSteps
  import opened WalletRuns

  /** Every index the sidecar records for this wallet is below what its record remembers. */
  ghost predicate Covered(b: Books, id: string) {
    && id in b.groups
    && forall a :: a in b.provenance && b.provenance[a].group == id && b.provenance[a].index.Some? ==>
         b.provenance[a].index.value < b.groups[id].nextIndex
  }

  /** The index `derive_next_account` would start at. */
  function Effective(b: Books, id: string): Index
    requires id in b.groups
  {
    NextIndex(b, id, b.groups[id])
  }

  lemma CoveredMeansRemembered(b: Books, id: string)
    requires Covered(b, id)
    ensures Effective(b, id) == b.groups[id].nextIndex
  {
    NextIndexIsLeast(b, id, b.groups[id], b.groups[id].nextIndex);
  }

  /** From `b` to `x` the record stayed, remembers no less, and still covers. */
  ghost predicate Climbed(b: Books, x: Books, id: string) {
    id in b.groups && Covered(x, id) && b.groups[id].nextIndex <= x.groups[id].nextIndex
  }

  predicate RecordsIndex(p: Prim) {
    p.PutProvenance? || p.FillProvenance?
  }

  lemma QuietStep(b: Books, p: Prim, id: string)
    requires Covered(b, id) && !Resets(p, id) && (RecordsIndex(p) ==> p.p.group != id)
    ensures Climbed(b, Apply(b, p), id)
  {
  }

  /** An index is recorded, then remembered. */
  lemma RecordThenBump(b: Books, p: Prim, id: string, index: Index)
    requires Covered(b, id) && RecordsIndex(p) && p.p.group == id && p.p.index == Some(index) && index < MAX_INDEX
    ensures Climbed(b, Apply(Apply(b, p), Bump(id, index)), id)
  {
  }

  /** Changes in which each index recorded for this wallet is remembered right after. */
  predicate Paired(ps: seq<Prim>, id: string) {
    if ps == [] then true
    else if RecordsIndex(ps[0]) && ps[0].p.group == id then
      && |ps| > 1 && ps[0].p.index.Some? && ps[0].p.index.value < MAX_INDEX
      && ps[1] == Bump(id, ps[0].p.index.value) && Paired(ps[2..], id)
    else !Resets(ps[0], id) && Paired(ps[1..], id)
  }

  lemma {:induction false} PairedRun(b: Books, ps: seq<Prim>, id: string)
    requires Covered(b, id) && Paired(ps, id)
    ensures Climbed(b, Replay(b, ps), id)
    decreases |ps|
  {
    if ps != [] {
      if RecordsIndex(ps[0]) && ps[0].p.group == id {
        RecordThenBump(b, ps[0], id, ps[0].p.index.value);
        assert ps[1..][1..] == ps[2..];
        PairedRun(Apply(Apply(b, ps[0]), ps[1]), ps[2..], id);
      } else {
        QuietStep(b, ps[0], id);
        PairedRun(Apply(b, ps[0]), ps[1..], id);
      }
    }
  }

  /** Changes that record nothing for this wallet and leave its record in place. */
  predicate Quiet(ps: seq<Prim>, id: string) {
    forall i :: 0 <= i < |ps| ==> !Resets(ps[i], id) && (RecordsIndex(ps[i]) ==> ps[i].p.group != id)
  }

  lemma {:induction false} QuietIsPaired(ps: seq<Prim>, id: string)
    requires Quiet(ps, id)
    ensures Paired(ps, id)
  {
    if ps != [] {
      QuietIsPaired(ps[1..], id);
    }
  }

  lemma PersistIsPaired(env: Crypto, id: string, key: nat, path: Bip44Path, password: string)
    requires path.Valid()
    ensures Paired(PersistDerived(env, id, key, path, password), id)
  {
    var ps := PersistDerived(env, id, key, path, password);
    assert ps[1..][2..] == [] && ps[1..][0] == ps[1] && ps[1..][1] == ps[2];
    assert Paired(ps[1..], id);
  }

  lemma PairedCons(p: Prim, q: Prim, rest: seq<Prim>, id: string)
    requires RecordsIndex(p) && p.p.group == id && p.p.index.Some? && p.p.index.value < MAX_INDEX
    requires q == Bump(id, p.p.index.value) && Paired(rest, id)
    ensures Paired([p, q] + rest, id)
  {
    assert ([p, q] + rest)[2..] == rest;
  }

  lemma {:induction false} WalkIsPaired(env: Crypto, held: set<string>, id: string, key: nat, account: nat, change: nat,
                                        password: string, start: Index, offset: nat)
    ensures Paired(Walk(env, held, id, key, account, change, password, start, offset).changes, id)
    decreases MAX_INDEX_SCAN - offset
  {
    var plan := Walk(env, held, id, key, account, change, password, start, offset);
    if HeldAt(env, held, key, account, change, Position(start, offset)) && offset < MAX_INDEX_SCAN {
      var path := Bip44Path(account, change, Position(start, offset));
      WalkIsPaired(env, held, id, key, account, change, password, start, offset + 1);
      PairedCons(FillProvenance(env.address(env.child(key, change, path.index)), DerivedFrom(id, path)), Bump(id, path.index),
                 Walk(env, held, id, key, account, change, password, start, offset + 1).changes, id);
    } else if FreeAt(env, held, key, account, change, Position(start, offset)) && offset < MAX_INDEX_SCAN {
      PersistIsPaired(env, id, key, Bip44Path(account, change, Position(start, offset)), password);
    } else {
      assert plan.changes == [];
    }
  }

  lemma {:induction false} WalkIsQuietElsewhere(env: Crypto, held: set<string>, id: string, key: nat, account: nat, change: nat,
                                                password: string, start: Index, offset: nat, other: string)
    requires other != id
    ensures Quiet(Walk(env, held, id, key, account, change, password, start, offset).changes, other)
    decreases MAX_INDEX_SCAN - offset
  {
    if offset < MAX_INDEX_SCAN {
      WalkIsQuietElsewhere(env, held, id, key, account, change, password, start, offset + 1, other);
    }
  }

  lemma DeriveNextIsPaired(env: Crypto, b: Books, e: Event, id: string)
    requires e.call.DeriveNext?
    ensures Paired(PlanAt(env, b, e).changes, id)
  {
    var c := e.call;
    var group := DerivableGroup(b, c.group);
    if group.Ok? && OpenGroupKey(b, group.value.0, c.groupPassword).Ok? && group.value.0 in b.groups {
      var g, key := group.value.0, OpenGroupKey(b, group.value.0, c.groupPassword).value;
      var start := NextIndex(b, g, b.groups[g]);
      if g == id {
        WalkIsPaired(env, b.vaults.Keys, g, key, group.value.1, c.change, c.password, start, 0);
      } else {
        WalkIsQuietElsewhere(env, b.vaults.Keys, g, key, group.value.1, c.change, c.password, start, 0, id);
        QuietIsPaired(PlanAt(env, b, e).changes, id);
      }
    }
  }

  lemma ImportIsQuietElsewhere(env: Crypto, b: Books, e: Event, id: string)
    requires e.call.ImportMnemonic? && e.call.id != id
    ensures Quiet(PlanAt(env, b, e).changes, id)
  {
    ImportFeedsItself(env, b, e, id);
    ImportResetsItself(env, b, e, id);
    var ps := PlanAt(env, b, e).changes;
    forall i | 0 <= i < |ps| ensures !Resets(ps[i], id) && (RecordsIndex(ps[i]) ==> ps[i].p.group != id) {
      assert !Feeds(ps[i], id);
    }
  }

  lemma DeriveAtIsPaired(env: Crypto, b: Books, e: Event, id: string)
    requires e.call.DeriveAt?
    ensures Paired(PlanAt(env, b, e).changes, id)
  {
    var c, ps := e.call, PlanAt(env, b, e).changes;
    if ps != [] {
      var account := DerivableGroup(b, Some(c.id)).value.1;
      if c.id == id {
        PersistIsPaired(env, c.id, OpenGroupKey(b, c.id, c.groupPassword).value, Bip44Path(account, c.change, c.index), c.password);
      } else {
        QuietIsPaired(ps, id);
      }
    } else {
      assert Paired(ps, id);
    }
  }

  lemma DeletesRecordNothing(env: Crypto, b: Books, address: string, password: string, p: Prim)
    requires p in DeletePlan(env, b, address, password).changes
    ensures !RecordsIndex(p)
  {
  }

  /** Everything else records accounts of no wallet. */
  lemma OtherCallsRecordNoIndex(env: Crypto, b: Books, e: Event, p: Prim)
    requires !e.call.ImportMnemonic? && !e.call.DeriveNext? && !e.call.DeriveAt?
    requires p in PlanAt(env, b, e).changes && RecordsIndex(p)
    ensures p.p.group == ""
  {
    match e.call {
      case ImportKey(origin, secret, password) =>
        var ps := ImportKeyPlan(env, origin, secret, password).changes;
        assert p == ps[0] || p == ps[1];
      case DeleteAccount(address, password) => DeletesRecordNothing(env, b, address, password, p);
      case ForgetDerivation(_) =>
      case RemoveGroup(_) =>
      case SetGroupLabel(_, _, _, _) =>
    }
  }

  lemma OtherCallsAreQuiet(env: Crypto, b: Books, e: Event, id: string)
    requires id != "" && e.call != RemoveGroup(id)
    requires !e.call.ImportMnemonic? && !e.call.DeriveNext? && !e.call.DeriveAt?
    ensures Quiet(PlanAt(env, b, e).changes, id)
  {
    OtherCallsResetNothing(env, b, e, id);
    var ps := PlanAt(env, b, e).changes;
    forall i | 0 <= i < |ps| && RecordsIndex(ps[i]) ensures ps[i].p.group != id {
      OtherCallsRecordNoIndex(env, b, e, ps[i]);
    }
  }

  lemma CallsArePaired(env: Crypto, b: Books, e: Event, id: string)
    requires id != "" && !Imports(e, id) && e.call != RemoveGroup(id)
    ensures Paired(PlanAt(env, b, e).changes, id)
  {
    if e.call.ImportMnemonic? {
      ImportIsQuietElsewhere(env, b, e, id);
      QuietIsPaired(PlanAt(env, b, e).changes, id);
    } else if e.call.DeriveNext? {
      DeriveNextIsPaired(env, b, e, id);
    } else if e.call.DeriveAt? {
      DeriveAtIsPaired(env, b, e, id);
    } else {
      OtherCallsAreQuiet(env, b, e, id);
      QuietIsPaired(PlanAt(env, b, e).changes, id);
    }
  }

  /** The call made every change of its plan, whatever it answered. */
  predicate Finished(env: Crypto, b: Books, e: Event) {
    e.cut >= |PlanAt(env, b, e).changes|
  }

  /** The calls from `i` to `j` make all their changes, and none of them imports or removes this wallet. */
  ghost predicate Undisturbed(env: Crypto, events: seq<Event>, states: seq<Books>, i: nat, j: nat, id: string)
    requires j <= |events| == |states| - 1
  {
    forall m :: i <= m < j ==>
      Finished(env, states[m], events[m]) && !Imports(events[m], id) && events[m].call != RemoveGroup(id)
  }

  lemma CoveredStep(env: Crypto, b: Books, e: Event, id: string)
    requires id != "" && Covered(b, id) && Finished(env, b, e) && !Imports(e, id) && e.call != RemoveGroup(id)
    ensures Climbed(b, Next(env, b, e), id)
  {
    CallsArePaired(env, b, e, id);
    PairedRun(b, PlanAt(env, b, e).changes, id);
    assert Made(env, b, e) == PlanAt(env, b, e).changes;
  }

  lemma CoveredAt(env: Crypto, events: seq<Event>, states: seq<Books>, i: nat, id: string)
    requires Ran(env, events, states) && i < |events| && id != "" && Covered(states[i], id)
    requires Finished(env, states[i], events[i]) && !Imports(events[i], id) && events[i].call != RemoveGroup(id)
    ensures Climbed(states[i], states[i + 1], id)
  {
    CoveredStep(env, states[i], events[i], id);
  }

  lemma {:induction false} CoveredRun(env: Crypto, events: seq<Event>, states: seq<Books>, i: nat, j: nat, id: string)
    requires Ran(env, events, states) && i <= j <= |events| && id != "" && Covered(states[i], id)
    requires Undisturbed(env, events, states, i, j, id)
    ensures Climbed(states[i], states[j], id)
  {
    if i < j {
      CoveredRun(env, events, states, i, j - 1, id);
      CoveredAt(env, events, states, j - 1, id);
    }
  }

  /** Over calls that make all their changes, the effective next index of a wallet never decreases. */
  lemma EffectiveNextNeverDecreases(env: Crypto, events: seq<Event>, states: seq<Books>, i: nat, j: nat, id: string)
    requires Ran(env, events, states) && i <= j <= |events| && id != "" && Covered(states[i], id)
    requires Undisturbed(env, events, states, i, j, id)
    ensures id in states[j].groups && Effective(states[i], id) <= Effective(states[j], id)
  {
    CoveredRun(env, events, states, i, j, id);
    CoveredMeansRemembered(states[i], id);
    CoveredMeansRemembered(states[j], id);
  }

  lemma FreshRecordCovers(b: Books, id: string, g: Group)
    requires FreshId(b, id)
    ensures Covered(Apply(b, PutGroup(id, g)), id)
  {
    forall a | a in b.provenance ensures b.provenance[a].group != id {
      assert a in AccountsOf(b, id) <==> b.provenance[a].group == id;
    }
  }

  lemma QuietRun(b: Books, ps: seq<Prim>, id: string)
    requires Covered(b, id) && Quiet(ps, id)
    ensures Climbed(b, Replay(b, ps), id)
  {
    QuietIsPaired(ps, id);
    PairedRun(b, ps, id);
  }

  lemma KeysAreQuiet(req: ImportRequest, id: string, key: nat, done: nat, guard: bool)
    ensures Quiet(KeyPart(req, id, key, done, guard), id)
  {
  }

  /** An import that returns `Ok` leaves its wallet covered, so the above holds from there on. */
  lemma ImportsStartCovered(env: Crypto, b: Books, e: Event)
    requires e.call.ImportMnemonic? && FreshId(b, e.call.id) && Succeeds(env, b, e)
    ensures Covered(Next(env, b, e), e.call.id)
  {
    var ImportMnemonic(req, id, nowMs) := e.call;
    var (path, key) := ImportKeyOf(env, req).value;
    var keys := KeyPart(req, id, key, 4, e.luck.guard);
    var account := PersistDerived(env, id, key, path, req.password);
    var ps := PlanAt(env, b, e).changes;
    assert Made(env, b, e) == ps;
    var name := NameChange(id, req.groupLabel);
    assert ps == [PutGroup(id, NewRecord(req, nowMs))] + ([name] + (keys + account));
    var b1 := Apply(b, PutGroup(id, NewRecord(req, nowMs)));
    FreshRecordCovers(b, id, NewRecord(req, nowMs));
    ReplayCons(b, PutGroup(id, NewRecord(req, nowMs)), [name] + (keys + account));
    ReplayConcat(b1, [name], keys + account);
    ReplayConcat(Replay(b1, [name]), keys, account);
    QuietRun(b1, [name], id);
    KeysAreQuiet(req, id, key, 4, e.luck.guard);
    QuietRun(Replay(b1, [name]), keys, id);
    PersistIsPaired(env, id, key, path, req.password);
    PairedRun(Replay(Replay(b1, [name]), keys), account, id);
  }

  // ---- when it falls -------------------------------------------------------------------

  /** From `b` to `x` the wallet loses the record of one account, replaced elsewhere or dropped. */
  ghost predicate Loses(b: Books, x: Books, id: string, a: string) {
    && a in b.provenance && b.provenance[a].group == id
    && b.provenance - {a} == x.provenance - {a} && b.groups == x.groups
    && (a in x.provenance ==> x.provenance[a].group != id)
  }

  /** The account alone holds the wallet's top index, and the record does not remember it. */
  predicate TopAndForgotten(b: Books, id: string, a: string)
    requires id in b.groups && a in b.provenance
  {
    && b.provenance[a].index.Some?
    && b.groups[id].nextIndex < Saturating(b.provenance[a].index.value + 1)
    && forall o :: o in b.provenance && o != a && b.provenance[o].group == id && b.provenance[o].index.Some? ==>
         Saturating(b.provenance[o].index.value + 1) < Saturating(b.provenance[a].index.value + 1)
  }

  /** The effective index is below a bound exactly when everything it is worked out from is. */
  lemma EffectiveBelow(b: Books, id: string, n: nat)
    requires id in b.groups && n > 0
    ensures Effective(b, id) < n <==>
      && b.groups[id].nextIndex < n
      && forall a :: a in b.provenance && b.provenance[a].group == id && b.provenance[a].index.Some? ==>
           Saturating(b.provenance[a].index.value + 1) < n
  {
    NextIndexIsLeast(b, id, b.groups[id], n - 1);
  }

  lemma OthersStay(b: Books, x: Books, id: string, a: string)
    requires Loses(b, x, id, a)
    ensures forall o :: o != a ==> (o in b.provenance <==> o in x.provenance)
    ensures forall o :: o != a && o in b.provenance ==> b.provenance[o] == x.provenance[o]
  {
    forall o | o != a
      ensures o in b.provenance <==> o in x.provenance
      ensures o in b.provenance ==> b.provenance[o] == x.provenance[o]
    {
      assert o in b.provenance <==> o in b.provenance - {a};
      assert o in x.provenance <==> o in x.provenance - {a};
      assert o in b.provenance ==> (b.provenance - {a})[o] == b.provenance[o];
      assert o in x.provenance ==> (x.provenance - {a})[o] == x.provenance[o];
    }
  }

  /** Losing a record lowers the effective next index exactly when it was the top one, alone, and forgotten. */
  lemma LosingLowersExactly(b: Books, x: Books, id: string, a: string)
    requires id in b.groups && Loses(b, x, id, a)
    ensures Effective(x, id) < Effective(b, id) <==> TopAndForgotten(b, id, a)
  {
    OthersStay(b, x, id, a);
    if b.provenance[a].index.Some? {
      var top := Saturating(b.provenance[a].index.value + 1);
      EffectiveBelow(x, id, top);
      EffectiveBelow(b, id, top);
      if Effective(b, id) > top {
        EffectiveBelow(x, id, Effective(b, id));
        EffectiveBelow(b, id, Effective(b, id));
      }
    } else {
      EffectiveBelow(x, id, if Effective(b, id) == 0 then 1 else Effective(b, id));
      EffectiveBelow(b, id, if Effective(b, id) == 0 then 1 else Effective(b, id));
    }
  }

  /**
   The failing input. A derivation that records its account and fails before the bump, then
   the same key imported as a raw one: the effective next index goes up by one and back down.
   */
  lemma EffectiveCanFall(env: Crypto, b: Books, id: string, key: nat, path: Bip44Path, password: string, origin: string)
    requires path.Valid() && id in b.groups && id != "" && b.groups[id].nextIndex == path.index
    requires forall a :: a in b.provenance ==> b.provenance[a].group != id
    ensures
      var x := Replay(b, PersistDerived(env, id, key, path, password)[..2]);
      var y := Replay(x, ImportKeyPlan(env, origin, env.child(key, path.change, path.index), password).changes);
      && id in x.groups && id in y.groups
      && Effective(b, id) == path.index && Effective(x, id) == path.index + 1 && Effective(y, id) == path.index
  {
    var secret := env.child(key, path.change, path.index);
    var a := env.address(secret);
    var vault, mine, theirs := PutVault(a, Sealed(secret, password)), DerivedFrom(id, path), Provenance(origin, "", "", None);
    var persist, plain := PersistDerived(env, id, key, path, password)[..2], ImportKeyPlan(env, origin, secret, password).changes;
    assert persist == [vault] + ([PutProvenance(a, mine)] + []);
    assert plain == [vault] + ([PutProvenance(a, theirs)] + []);
    ReplayTwo(b, vault, PutProvenance(a, mine));
    var x := Apply(Apply(b, vault), PutProvenance(a, mine));
    ReplayTwo(x, vault, PutProvenance(a, theirs));
    var y := Apply(Apply(x, vault), PutProvenance(a, theirs));
    EffectiveOfOne(b, id, a, path.index);
    EffectiveOfOne(x, id, a, path.index);
    EffectiveOfOne(y, id, a, path.index);
  }

  lemma ReplayTwo(b: Books, p: Prim, q: Prim)
    ensures Replay(b, [p] + ([q] + [])) == Apply(Apply(b, p), q)
  {
    ReplayCons(b, p, [q] + []);
    ReplayCons(Apply(b, p), q, []);
  }

  /** The effective index of a wallet with one account at most. */
  lemma EffectiveOfOne(b: Books, id: string, a: string, index: Index)
    requires id in b.groups && b.groups[id].nextIndex == index < HARDENED
    requires forall o :: o in b.provenance && o != a ==> b.provenance[o].group != id
    requires a in b.provenance && b.provenance[a].group == id ==> b.provenance[a].index == Some(index)
    ensures Effective(b, id) == if a in b.provenance && b.provenance[a].group == id then index + 1 else index
  {
    EffectiveBelow(b, id, index + 1);
    EffectiveBelow(b, id, index + 2);
    if index > 0 {
      EffectiveBelow(b, id, index);
    }
  }
}
