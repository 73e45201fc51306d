/**
 Wallet calls that overlap: which keys keep their record, and which indices climb.

 Over the moves of `WalletRaces`, for `import_mnemonic_ex`, `remove_group` and
 `derive_next_account` of rust-lib/src/keystore.rs: a removal can come between an import's
 record and its key, and two derivations that overlap can hand out one index.
 */
module WalletOverlaps {
  import opened Base
  import opened Hd
  import Layout
  import opened Wallet
  import opened WalletSteps
  import opened WalletEffects
  import opened WalletRaces
  import Runs = WalletRuns

  // ---- a key and its record ------------------------------------------------------------

  /** A change that puts a copy of a wallet's key on disk. */
  predicate KeyStep(p: Prim, id: string) {
    (p.TearCopy? || p.FillCopy?) && p.id == id
  }

  predicate NoKeySteps(ps: seq<Prim>, id: string) {
    forall i :: 0 <= i < |ps| ==> !KeyStep(ps[i], id)
  }

  ghost predicate NobodyKeys(w: Race, id: string) {
    forall actor: nat :: NoKeySteps(PendingOf(w, actor), id)
  }

  lemma UnkeyedStep(b: Books, p: Prim, id: string)
    requires !Keyed(b, id) && !KeyStep(p, id)
    ensures !Keyed(Apply(b, p), id)
  {
  }

  lemma {:induction false} UnkeyedRun(b: Books, ps: seq<Prim>, id: string)
    requires !Keyed(b, id) && NoKeySteps(ps, id)
    ensures !Keyed(Replay(b, ps), id)
    decreases |ps|
  {
    if ps != [] {
      UnkeyedStep(b, ps[0], id);
      UnkeyedRun(Apply(b, ps[0]), ps[1..], id);
    }
  }

  predicate Copies(ps: seq<Prim>) {
    exists i :: 0 <= i < |ps| && (ps[i].TearCopy? || ps[i].FillCopy?)
  }

  lemma {:induction false} WalkCopiesNothing(env: Crypto, held: set<string>, id: string, key: nat, account: nat, change: nat,
                                             password: string, start: Index, offset: nat)
    ensures !Copies(Walk(env, held, id, key, account, change, password, start, offset).changes)
    decreases MAX_INDEX_SCAN - offset
  {
    if offset < MAX_INDEX_SCAN {
      WalkCopiesNothing(env, held, id, key, account, change, password, start, offset + 1);
    }
  }

  lemma DeriveNextCopiesNothing(env: Crypto, b: Books, group: Option<string>, groupPassword: string, password: string, change: nat)
    ensures !Copies(DeriveNextPlan(env, b, group, groupPassword, password, change).changes)
  {
    var found := DerivableGroup(b, group);
    if found.Ok? && OpenGroupKey(b, found.value.0, groupPassword).Ok? && found.value.0 in b.groups {
      WalkCopiesNothing(env, b.vaults.Keys, found.value.0, OpenGroupKey(b, found.value.0, groupPassword).value, found.value.1,
                        change, password, NextIndex(b, found.value.0, b.groups[found.value.0]), 0);
    }
  }

  lemma DeriveAtCopiesNothing(env: Crypto, b: Books, id: string, groupPassword: string, password: string,
                              asked: Option<nat>, change: nat, index: nat)
    ensures !Copies(DeriveAtPlan(env, b, id, groupPassword, password, asked, change, index).changes)
  {
  }

  lemma DeleteCopiesNothing(env: Crypto, b: Books, address: string, password: string)
    ensures !Copies(DeletePlan(env, b, address, password).changes)
  {
  }

  lemma ImportKeyCopiesNothing(env: Crypto, origin: string, secret: nat, password: string)
    ensures !Copies(ImportKeyPlan(env, origin, secret, password).changes)
  {
  }

  lemma SetLabelCopiesNothing(env: Crypto, b: Books, id: string, text: string, address: string, password: string)
    ensures !Copies(SetLabelPlan(env, b, id, text, address, password).changes)
  {
  }

  lemma OthersCopyNothing(env: Crypto, b: Books, call: Call, reached: Reached, luck: Luck)
    requires !call.ImportMnemonic?
    ensures !Copies(PlanOf(env, b, call, reached, luck).changes)
  {
    match call {
      case DeriveNext(group, groupPassword, password, change) => DeriveNextCopiesNothing(env, b, group, groupPassword, password, change);
      case DeriveAt(id, groupPassword, password, asked, change, index) =>
        DeriveAtCopiesNothing(env, b, id, groupPassword, password, asked, change, index);
      case DeleteAccount(address, password) => DeleteCopiesNothing(env, b, address, password);
      case ImportKey(origin, secret, password) => ImportKeyCopiesNothing(env, origin, secret, password);
      case ForgetDerivation(_) =>
      case RemoveGroup(_) =>
      case SetGroupLabel(id, text, address, password) => SetLabelCopiesNothing(env, b, id, text, address, password);
    }
  }

  lemma UnfedIsUnkeyed(ps: seq<Prim>, id: string)
    requires Runs.NoneFeeds(ps, id)
    ensures NoKeySteps(ps, id)
  {
    forall i | 0 <= i < |ps| ensures !KeyStep(ps[i], id) {
      assert !Runs.Feeds(ps[i], id);
    }
  }

  lemma PlansKeyNothing(env: Crypto, b: Books, call: Call, reached: Reached, luck: Luck, id: string)
    requires !(call.ImportMnemonic? && call.id == id)
    ensures NoKeySteps(PlanOf(env, b, call, reached, luck).changes, id)
  {
    if call.ImportMnemonic? {
      Runs.ImportFeedsItself(env, b, Runs.Event(call, reached, luck, 0), id);
      UnfedIsUnkeyed(PlanOf(env, b, call, reached, luck).changes, id);
    } else {
      OthersCopyNothing(env, b, call, reached, luck);
    }
  }

  lemma StepStaysUnkeyed(env: Crypto, w: Race, m: Move, id: string)
    requires !Keyed(w.books, id) && NobodyKeys(w, id) && !StartsImport(m, id)
    ensures !Keyed(Step(env, w, m).books, id) && NobodyKeys(Step(env, w, m), id)
  {
    var x, ps := Step(env, w, m), PendingOf(w, m.actor);
    assert NoKeySteps(ps, id);
    if m.Start? {
      PlansKeyNothing(env, w.books, m.call, m.reached, m.luck, id);
    } else if m.Advance? && ps != [] {
      UnkeyedStep(w.books, ps[0], id);
      assert NoKeySteps(ps[1..], id);
    }
    forall actor: nat ensures NoKeySteps(PendingOf(x, actor), id) {
      assert NoKeySteps(PendingOf(w, actor), id);
    }
  }

  lemma {:induction false} RacesStayUnkeyed(env: Crypto, w: Race, moves: seq<Move>, id: string)
    requires !Keyed(w.books, id) && NobodyKeys(w, id) && NoImport(moves, id)
    ensures !Keyed(After(env, w, moves).books, id)
    decreases |moves|
  {
    if moves != [] {
      assert !StartsImport(moves[0], id);
      StepStaysUnkeyed(env, w, moves[0], id);
      RacesStayUnkeyed(env, Step(env, w, moves[0]), moves[1..], id);
    }
  }

  // ---- an import's account comes after its key -----------------------------------------

  predicate Accounts(ps: seq<Prim>) {
    exists i :: 0 <= i < |ps| && (ps[i].PutProvenance? || ps[i].FillProvenance?)
  }

  /** Copies of a key, if any, come before any account. */
  ghost predicate KeysFirst(ps: seq<Prim>) {
    exists n: nat :: Divides(ps, n)
  }

  predicate Divides(ps: seq<Prim>, n: nat) {
    n <= |ps| && !Accounts(ps[..n]) && !Copies(ps[n..])
  }

  lemma DividedBy(x: seq<Prim>, y: seq<Prim>)
    requires !Accounts(x) && !Copies(y)
    ensures KeysFirst(x + y)
  {
    assert (x + y)[..|x|] == x && (x + y)[|x|..] == y;
    assert Divides(x + y, |x|);
  }

  lemma PartAccountsNothing(ps: seq<Prim>, lo: nat, hi: nat)
    requires lo <= hi <= |ps| && !Accounts(ps[..hi])
    ensures !Accounts(ps[lo..hi])
  {
    forall i | 0 <= i < hi - lo ensures !ps[lo..hi][i].PutProvenance? && !ps[lo..hi][i].FillProvenance? {
      assert ps[lo..hi][i] == ps[..hi][lo + i];
    }
  }

  lemma PartCopiesNothing(ps: seq<Prim>, lo: nat, hi: nat)
    requires lo <= hi <= |ps| && !Copies(ps[lo..])
    ensures !Copies(ps[hi..])
  {
    forall i | 0 <= i < |ps| - hi ensures !ps[hi..][i].TearCopy? && !ps[hi..][i].FillCopy? {
      assert ps[hi..][i] == ps[lo..][hi - lo + i];
    }
  }

  lemma KeysFirstEnd(whole: seq<Prim>, m: nat)
    requires KeysFirst(whole) && m <= |whole|
    ensures KeysFirst(whole[m..])
  {
    var n: nat :| Divides(whole, n);
    var ps := whole[m..];
    if n <= m {
      PartCopiesNothing(whole, n, m);
      assert ps[0..] == ps;
      assert Divides(ps, 0);
    } else {
      PartAccountsNothing(whole, m, n);
      assert ps[..n - m] == whole[m..n] && ps[n - m..] == whole[n..];
      assert Divides(ps, n - m);
    }
  }

  lemma KeysAccountNothing(req: ImportRequest, id: string, key: nat, done: nat, guard: bool)
    ensures !Accounts(KeyPart(req, id, key, done, guard))
  {
  }

  lemma NoAccountsBoth(x: seq<Prim>, y: seq<Prim>)
    requires !Accounts(x) && !Accounts(y)
    ensures !Accounts(x + y)
  {
  }

  lemma NoCopiesBoth(x: seq<Prim>, y: seq<Prim>)
    requires !Copies(x) && !Copies(y)
    ensures !Copies(x + y)
  {
  }

  lemma RegroupPrims(r: seq<Prim>, n: seq<Prim>, k: seq<Prim>, a: seq<Prim>, t: seq<Prim>)
    ensures r + (n + (k + a)) + t == r + (n + k) + (a + t)
  {
  }

  /** A record, a name, a key, and then what may be an account and a rollback. */
  lemma ImportDivides(req: ImportRequest, id: string, nowMs: nat, keys: seq<Prim>, some: seq<Prim>, back: seq<Prim>)
    requires !Accounts(keys) && !Copies(some) && !Copies(back)
    ensures KeysFirst([PutGroup(id, NewRecord(req, nowMs))] + ([NameChange(id, req.groupLabel)] + (keys + some)) + back)
  {
    var record, name := [PutGroup(id, NewRecord(req, nowMs))], [NameChange(id, req.groupLabel)];
    NoAccountsBoth(name, keys);
    NoAccountsBoth(record, name + keys);
    NoCopiesBoth(some, back);
    RegroupPrims(record, name, keys, some, back);
    DividedBy(record + (name + keys), some + back);
  }

  lemma AccountCopiesNothing(env: Crypto, id: string, key: nat, path: Bip44Path, password: string, n: nat)
    requires path.Valid() && n <= 3
    ensures |PersistDerived(env, id, key, path, password)| == 3 && !Copies(PersistDerived(env, id, key, path, password)[..n])
    ensures !Copies(PersistDerived(env, id, key, path, password))
  {
  }

  lemma RollbackCopiesNothing(id: string, luck: Luck)
    ensures !Copies(Rollback(id, luck))
  {
  }

  lemma ImportKeysFirst(env: Crypto, req: ImportRequest, id: string, nowMs: nat, path: Bip44Path, key: nat,
                        reached: Reached, luck: Luck)
    requires path.Valid()
    ensures KeysFirst(ImportChanges(env, req, id, nowMs, path, key, reached, luck))
  {
    var back := if TurnsBack(reached) then Rollback(id, luck) else [];
    RollbackCopiesNothing(id, luck);
    match reached {
      case AtRecord =>
        DividedBy([], back);
      case AtName =>
        DividedBy([PutGroup(id, NewRecord(req, nowMs))] + [], back);
      case AtKey(done) =>
        var keys := KeyPart(req, id, key, if done < 4 then done else 3, luck.guard);
        KeysAccountNothing(req, id, key, if done < 4 then done else 3, luck.guard);
        ImportDivides(req, id, nowMs, keys, [], back);
        assert keys + [] == keys;
      case AtAccount(done) =>
        KeysAccountNothing(req, id, key, 4, luck.guard);
        AccountCopiesNothing(env, id, key, path, req.password, if done < 3 then done else 2);
        ImportDivides(req, id, nowMs, KeyPart(req, id, key, 4, luck.guard),
                      PersistDerived(env, id, key, path, req.password)[..if done < 3 then done else 2], back);
      case Landed =>
        KeysAccountNothing(req, id, key, 4, luck.guard);
        AccountCopiesNothing(env, id, key, path, req.password, 3);
        ImportDivides(req, id, nowMs, KeyPart(req, id, key, 4, luck.guard), PersistDerived(env, id, key, path, req.password), []);
    }
  }

  lemma PlansKeysFirst(env: Crypto, b: Books, call: Call, reached: Reached, luck: Luck)
    ensures KeysFirst(PlanOf(env, b, call, reached, luck).changes)
  {
    if call.ImportMnemonic? && ImportKeyOf(env, call.req).Ok? {
      var (path, key) := ImportKeyOf(env, call.req).value;
      ImportKeysFirst(env, call.req, call.id, call.nowMs, path, key, reached, luck);
    } else {
      var ps := PlanOf(env, b, call, reached, luck).changes;
      if !call.ImportMnemonic? {
        OthersCopyNothing(env, b, call, reached, luck);
      }
      assert ps[0..] == ps;
      assert Divides(ps, 0);
    }
  }

  lemma RestsKeysFirst(env: Crypto, ps: seq<Prim>)
    requires RestOfACall(env, ps)
    ensures KeysFirst(ps)
  {
    var whole, n: nat :| EndOf(env, ps, whole, n);
    var b, call, reached, luck :| whole == PlanOf(env, b, call, reached, luck).changes;
    PlansKeysFirst(env, b, call, reached, luck);
    KeysFirstEnd(whole, n);
  }

  // ---- a record removed under a key ----------------------------------------------------

  lemma FirstKeyStep(ps: seq<Prim>, id: string) returns (k: nat)
    requires !NoKeySteps(ps, id)
    ensures k < |ps| && KeyStep(ps[k], id) && NoKeySteps(ps[..k], id)
  {
    k := 0;
    while !KeyStep(ps[k], id)
      invariant k < |ps| && NoKeySteps(ps[..k], id) && !NoKeySteps(ps, id)
      decreases |ps| - k
    {
      assert exists i :: 0 <= i < |ps| && KeyStep(ps[i], id);
      k := k + 1;
    }
  }

  lemma {:induction false} NoAccountsRun(b: Books, ps: seq<Prim>, id: string)
    requires AccountsOf(b, id) == {} && !Accounts(ps)
    ensures AccountsOf(Replay(b, ps), id) == {}
    decreases |ps|
  {
    if ps != [] {
      assert !ps[0].PutProvenance? && !ps[0].FillProvenance?;
      assert AccountsOf(Apply(b, ps[0]), id) <= AccountsOf(b, id);
      assert !Accounts(ps[1..]) by {
        assert forall i :: 0 <= i < |ps[1..]| ==> ps[1..][i] == ps[i + 1];
      }
      NoAccountsRun(Apply(b, ps[0]), ps[1..], id);
    }
  }

  lemma CopyFrom(ps: seq<Prim>, n: nat, k: nat)
    requires n <= k < |ps| && (ps[k].TearCopy? || ps[k].FillCopy?)
    ensures Copies(ps[n..])
  {
    assert ps[n..][k - n] == ps[k];
  }

  lemma BeforeTheCopy(ps: seq<Prim>, k: nat)
    requires k < |ps| && KeysFirst(ps) && (ps[k].TearCopy? || ps[k].FillCopy?)
    ensures !Accounts(ps[..k])
  {
    var n: nat :| Divides(ps, n);
    if n <= k {
      CopyFrom(ps, n, k);
    } else {
      forall i | 0 <= i < k ensures !ps[..k][i].PutProvenance? && !ps[..k][i].FillProvenance? {
        assert ps[..k][i] == ps[..n][i];
      }
    }
  }

  /** An actor that is idle takes the record and the name away, where nothing is held. */
  lemma RecordRemoved(env: Crypto, w: Race, actor: nat, id: string) returns (moves: seq<Move>)
    requires HoldsNothing(w.books, id) && Layout.IsGroupId(id) && PendingOf(w, actor) == []
    ensures NoImport(moves, id)
    ensures
      var x := After(env, w, moves);
      id !in x.books.groups && x.books.staged == w.books.staged && OthersWait(w, x, actor)
  {
    if id !in w.books.groups {
      moves := [];
    } else {
      CallIsMade(env, w, actor, RemoveGroup(id));
      RemovedState(w.books, id);
      moves := Made(env, w, actor, RemoveGroup(id));
    }
  }

  /** Whoever is about to put a wallet's key on disk can find its record gone. */
  lemma KeysCanLoseTheirRecord(env: Crypto, w: Race, actor: nat, k: nat, id: string) returns (moves: seq<Move>)
    requires HoldsNothing(w.books, id) && Layout.IsGroupId(id)
    requires k < |PendingOf(w, actor)| && KeysFirst(PendingOf(w, actor))
    requires KeyStep(PendingOf(w, actor)[k], id) && NoKeySteps(PendingOf(w, actor)[..k], id)
    ensures NoImport(moves, id)
    ensures Keyed(After(env, w, moves).books, id) && id !in After(env, w, moves).books.groups
  {
    var ps := PendingOf(w, actor);
    var free, upTo, last := [Kill(actor + 1)], Advances(actor, k), Advances(actor, 1);
    var idle := After(env, w, free);
    assert free[1..] == [] && idle == After(env, Step(env, w, free[0]), []);
    AloneItAdvances(env, idle, actor, k);
    var before := After(env, idle, upTo);
    BeforeTheCopy(ps, k);
    NoAccountsRun(w.books, ps[..k], id);
    UnkeyedRun(w.books, ps[..k], id);
    var remove := RecordRemoved(env, before, actor + 1, id);
    var bare := After(env, before, remove);
    assert PendingOf(bare, actor) == ps[k..];
    AloneItAdvances(env, bare, actor, 1);
    CopyLands(bare.books, ps[k..], id);
    AdvancesImportNothing(actor, k, id);
    AdvancesImportNothing(actor, 1, id);
    AllFour(env, w, free, upTo, remove, last, id);
    moves := free + upTo + remove + last;
  }

  lemma AllFour(env: Crypto, w: Race, p: seq<Move>, q: seq<Move>, r: seq<Move>, s: seq<Move>, id: string)
    requires NoImport(p, id) && NoImport(q, id) && NoImport(r, id) && NoImport(s, id)
    ensures NoImport(p + q + r + s, id)
    ensures After(env, w, p + q + r + s) == After(env, After(env, After(env, After(env, w, p), q), r), s)
  {
    AfterBoth(env, w, p, q);
    AfterBoth(env, w, p + q, r);
    AfterBoth(env, w, p + q + r, s);
    NoImportBoth(p, q, id);
    NoImportBoth(p + q, r, id);
    NoImportBoth(p + q + r, s, id);
  }

  lemma CopyLands(b: Books, ps: seq<Prim>, id: string)
    requires ps != [] && KeyStep(ps[0], id)
    ensures Keyed(Replay(b, ps[..1]), id) && Replay(b, ps[..1]).groups == b.groups
  {
    assert ps[..1] == [ps[0]] + [];
    ReplayCons(b, ps[0], []);
  }

  /**
   The exact condition for a wallet that holds nothing: in every interleaving without its own
   import a key of it on disk has its record, iff no actor is about to put one there. An import
   between its record and its key is overtaken by a removal that sees nothing held.
   */
  lemma RecordBeforeKeyExactly(env: Crypto, w: Race, id: string)
    requires HoldsNothing(w.books, id) && Layout.IsGroupId(id) && AllInCalls(env, w)
    ensures NobodyKeys(w, id) <==>
      forall moves :: NoImport(moves, id) && Keyed(After(env, w, moves).books, id) ==> id in After(env, w, moves).books.groups
  {
    if NobodyKeys(w, id) {
      forall moves | NoImport(moves, id) ensures !Keyed(After(env, w, moves).books, id) {
        RacesStayUnkeyed(env, w, moves, id);
      }
    } else {
      var actor: nat :| !NoKeySteps(PendingOf(w, actor), id);
      var k := FirstKeyStep(PendingOf(w, actor), id);
      RestsKeysFirst(env, PendingOf(w, actor));
      var moves := KeysCanLoseTheirRecord(env, w, actor, k, id);
    }
  }

  // ---- indices -------------------------------------------------------------------------

  /** The record, if there is one, remembers that this index is used. */
  predicate PastOrGone(b: Books, id: string, n: nat) {
    id in b.groups ==> b.groups[id].nextIndex > n
  }

  predicate PutsNoRecord(ps: seq<Prim>, id: string) {
    forall i :: 0 <= i < |ps| ==> !(ps[i].PutGroup? && ps[i].id == id)
  }

  ghost predicate NobodyPuts(w: Race, id: string) {
    forall actor: nat :: PutsNoRecord(PendingOf(w, actor), id)
  }

  lemma {:induction false} WalkPutsNoRecord(env: Crypto, held: set<string>, id: string, key: nat, account: nat, change: nat,
                                            password: string, start: Index, offset: nat, other: string)
    ensures PutsNoRecord(Walk(env, held, id, key, account, change, password, start, offset).changes, other)
    decreases MAX_INDEX_SCAN - offset
  {
    if offset < MAX_INDEX_SCAN {
      WalkPutsNoRecord(env, held, id, key, account, change, password, start, offset + 1, other);
    }
  }

  lemma UnresetPutsNothing(ps: seq<Prim>, id: string)
    requires Runs.NoneResets(ps, id)
    ensures PutsNoRecord(ps, id)
  {
    forall i | 0 <= i < |ps| ensures !(ps[i].PutGroup? && ps[i].id == id) {
      assert !Runs.Resets(ps[i], id);
    }
  }

  lemma PlansPutNoRecord(env: Crypto, b: Books, call: Call, reached: Reached, luck: Luck, id: string)
    requires !(call.ImportMnemonic? && call.id == id)
    ensures PutsNoRecord(PlanOf(env, b, call, reached, luck).changes, id)
  {
    match call {
      case ImportMnemonic(req, other, nowMs) =>
        Runs.ImportResetsItself(env, b, Runs.Event(call, reached, luck, 0), id);
        UnresetPutsNothing(PlanOf(env, b, call, reached, luck).changes, id);
      case DeriveNext(group, groupPassword, password, change) =>
        var found := DerivableGroup(b, group);
        if found.Ok? && OpenGroupKey(b, found.value.0, groupPassword).Ok? && found.value.0 in b.groups {
          WalkPutsNoRecord(env, b.vaults.Keys, found.value.0, OpenGroupKey(b, found.value.0, groupPassword).value, found.value.1,
                           change, password, NextIndex(b, found.value.0, b.groups[found.value.0]), 0, id);
        }
      case _ =>
    }
  }

  lemma StepStaysPast(env: Crypto, w: Race, m: Move, id: string, n: nat)
    requires PastOrGone(w.books, id, n) && NobodyPuts(w, id) && !StartsImport(m, id)
    ensures PastOrGone(Step(env, w, m).books, id, n) && NobodyPuts(Step(env, w, m), id)
  {
    var x, ps := Step(env, w, m), PendingOf(w, m.actor);
    assert PutsNoRecord(ps, id);
    if m.Start? {
      PlansPutNoRecord(env, w.books, m.call, m.reached, m.luck, id);
    } else if m.Advance? && ps != [] {
      PastStays(w.books, ps[0], id, n);
      assert PutsNoRecord(ps[1..], id);
    }
    forall actor: nat ensures PutsNoRecord(PendingOf(x, actor), id) {
      assert PutsNoRecord(PendingOf(w, actor), id);
    }
  }

  lemma PastStays(b: Books, p: Prim, id: string, n: nat)
    requires PastOrGone(b, id, n) && !(p.PutGroup? && p.id == id)
    ensures PastOrGone(Apply(b, p), id, n)
  {
  }

  lemma {:induction false} RacesStayPast(env: Crypto, w: Race, moves: seq<Move>, id: string, n: nat)
    requires PastOrGone(w.books, id, n) && NobodyPuts(w, id) && NoImport(moves, id)
    ensures PastOrGone(After(env, w, moves).books, id, n)
    decreases |moves|
  {
    if moves != [] {
      assert !StartsImport(moves[0], id);
      StepStaysPast(env, w, moves[0], id, n);
      RacesStayPast(env, Step(env, w, moves[0]), moves[1..], id, n);
    }
  }

  /** The last change of a derivation makes its index past, whatever came between its changes. */
  lemma FinishedIsPast(env: Crypto, w: Race, actor: nat, id: string, n: Index)
    requires n < MAX_INDEX && PendingOf(w, actor) == [Bump(id, n)]
    ensures PastOrGone(Step(env, w, Advance(actor)).books, id, n)
  {
  }

  /**
   Indices climb across actors too, one after another: a derivation that starts, in whatever
   interleaving, once an earlier one has made its last change hands out an index above that one's.
   */
  lemma IndicesClimbAcross(env: Crypto, w: Race, actor: nat, moves: seq<Move>, e: Runs.Event, id: string, n: Index, m: nat)
    requires n < MAX_INDEX && PendingOf(w, actor) == [Bump(id, n)]
    requires NobodyPuts(w, id) && NoImport(moves, id) && e.call.DeriveNext?
    requires Runs.Issues(env, After(env, Step(env, w, Advance(actor)), moves).books, e, id, m)
    ensures n < m
  {
    var x := Step(env, w, Advance(actor));
    FinishedIsPast(env, w, actor, id, n);
    StillNobodyPuts(env, w, actor, id);
    RacesStayPast(env, x, moves, id, n);
    var b := After(env, x, moves).books;
    IssuedAbove(env, b, e, id, n, m);
  }

  lemma StillNobodyPuts(env: Crypto, w: Race, actor: nat, id: string)
    requires NobodyPuts(w, id)
    ensures NobodyPuts(Step(env, w, Advance(actor)), id)
  {
    var x, ps := Step(env, w, Advance(actor)), PendingOf(w, actor);
    assert PutsNoRecord(ps, id);
    forall other: nat ensures PutsNoRecord(PendingOf(x, other), id) {
      assert PutsNoRecord(PendingOf(w, other), id);
    }
  }

  lemma IssuedAbove(env: Crypto, b: Books, e: Runs.Event, id: string, n: nat, m: nat)
    requires e.call.DeriveNext? && Runs.Issues(env, b, e, id, m) && PastOrGone(b, id, n)
    ensures n < m
  {
    var c := e.call;
    var (found, account) := DerivableGroup(b, c.group).value;
    var start := NextIndex(b, found, b.groups[found]);
    Runs.WalkEndsBumping(env, b.vaults.Keys, found, OpenGroupKey(b, found, c.groupPassword).value, account, c.change, c.password, start, 0);
  }

  // ---- two at once ---------------------------------------------------------------------

  /** A walk that answers notes what it passes and then persists the account it answers with. */
  lemma {:induction false} WalkPersists(env: Crypto, held: set<string>, id: string, key: nat, account: nat, change: nat,
                                        password: string, start: Index, offset: nat) returns (pre: seq<Prim>, path: Bip44Path)
    requires Walk(env, held, id, key, account, change, password, start, offset).answer.Ok?
    ensures path.Valid()
    ensures
      var plan := Walk(env, held, id, key, account, change, password, start, offset);
      plan.answer == Ok(DerivedReply(env, id, key, path)) && plan.changes == pre + PersistDerived(env, id, key, path, password)
    decreases MAX_INDEX_SCAN - offset
  {
    var index := Saturating(start + offset);
    var a := env.address(env.child(key, change, index));
    if a !in held {
      pre, path := [], NewPath(account, change, index).value;
      assert [] + PersistDerived(env, id, key, path, password) == PersistDerived(env, id, key, path, password);
    } else {
      var note := [FillProvenance(a, DerivedFrom(id, NewPath(account, change, index).value)), Bump(id, index)];
      var more;
      more, path := WalkPersists(env, held, id, key, account, change, password, start, offset + 1);
      pre := note + more;
      assert note + (more + PersistDerived(env, id, key, path, password)) == pre + PersistDerived(env, id, key, path, password);
    }
  }

  lemma {:induction false} PasswordsAside(env: Crypto, held: set<string>, id: string, key: nat, account: nat, change: nat,
                                          first: string, second: string, start: Index, offset: nat)
    ensures Walk(env, held, id, key, account, change, first, start, offset).answer ==
            Walk(env, held, id, key, account, change, second, start, offset).answer
    decreases MAX_INDEX_SCAN - offset
  {
    if offset < MAX_INDEX_SCAN {
      PasswordsAside(env, held, id, key, account, change, first, second, start, offset + 1);
    }
  }

  lemma PersistedVault(env: Crypto, b: Books, pre: seq<Prim>, id: string, key: nat, path: Bip44Path, password: string)
    requires path.Valid()
    ensures
      var secret := env.child(key, path.change, path.index);
      var a := env.address(secret);
      var x := Replay(b, pre + PersistDerived(env, id, key, path, password));
      a in x.vaults && x.vaults[a] == Sealed(secret, password)
  {
    var secret := env.child(key, path.change, path.index);
    var a := env.address(secret);
    var mid := Replay(b, pre);
    ReplayConcat(b, pre, PersistDerived(env, id, key, path, password));
    ReplayThree(mid, PutVault(a, Sealed(secret, password)), PutProvenance(a, DerivedFrom(id, path)), Bump(id, path.index));
  }

  lemma PlanPersists(env: Crypto, b: Books, group: Option<string>, groupPassword: string, password: string, change: nat)
    returns (pre: seq<Prim>, id: string, key: nat, path: Bip44Path)
    requires DeriveNextPlan(env, b, group, groupPassword, password, change).answer.Ok?
    ensures path.Valid()
    ensures
      var plan := DeriveNextPlan(env, b, group, groupPassword, password, change);
      plan.answer == Ok(DerivedReply(env, id, key, path)) && plan.changes == pre + PersistDerived(env, id, key, path, password)
  {
    id := DerivableGroup(b, group).value.0;
    key := OpenGroupKey(b, id, groupPassword).value;
    var account, start := DerivableGroup(b, group).value.1, NextIndex(b, id, b.groups[id]);
    pre, path := WalkPersists(env, b.vaults.Keys, id, key, account, change, password, start, 0);
  }

  /** Which account it is does not depend on the password it is to have. */
  lemma PlanPasswordsAside(env: Crypto, b: Books, group: Option<string>, groupPassword: string, change: nat, first: string, second: string)
    ensures DeriveNextPlan(env, b, group, groupPassword, first, change).answer ==
            DeriveNextPlan(env, b, group, groupPassword, second, change).answer
  {
    var found := DerivableGroup(b, group);
    if found.Ok? && OpenGroupKey(b, found.value.0, groupPassword).Ok? && found.value.0 in b.groups {
      PasswordsAside(env, b.vaults.Keys, found.value.0, OpenGroupKey(b, found.value.0, groupPassword).value, found.value.1, change,
                     first, second, NextIndex(b, found.value.0, b.groups[found.value.0]), 0);
    }
  }

  /**
   Two derivations that start on the same books hand out one index and one address, and the
   vault of the one that ends last replaces the other's: under its password alone it opens.
   */
  lemma TwoDerivationsCollide(env: Crypto, b: Books, group: Option<string>, groupPassword: string, change: nat, first: string, second: string)
    returns (moves: seq<Move>, reply: Reply, secret: nat)
    requires DeriveNextPlan(env, b, group, groupPassword, first, change).answer.Ok?
    ensures DeriveNextPlan(env, b, group, groupPassword, first, change).answer == Ok(reply)
    ensures DeriveNextPlan(env, b, group, groupPassword, second, change).answer == Ok(reply)
    ensures reply.Derived? && reply.address == env.address(secret)
    ensures |moves| > 1
    ensures moves[0] == Start(0, DeriveNext(group, groupPassword, first, change), Landed, GOES_WELL)
    ensures moves[1] == Start(1, DeriveNext(group, groupPassword, second, change), Landed, GOES_WELL)
    ensures
      var x := After(env, Race(b, map[]), moves);
      && PendingOf(x, 0) == [] && PendingOf(x, 1) == []
      && reply.address in x.books.vaults && x.books.vaults[reply.address] == Sealed(secret, second)
  {
    PlanPasswordsAside(env, b, group, groupPassword, change, first, second);
    moves := BothMade(env, b, DeriveNext(group, groupPassword, first, change), DeriveNext(group, groupPassword, second, change));
    reply, secret := VaultOfPlan(env, b, group, groupPassword, second, change,
                                 Replay(b, DeriveNextPlan(env, b, group, groupPassword, first, change).changes));
  }

  /** Whatever the books have become, the plan ends with its vault there. */
  lemma VaultOfPlan(env: Crypto, b: Books, group: Option<string>, groupPassword: string, password: string, change: nat, mid: Books)
    returns (reply: Reply, secret: nat)
    requires DeriveNextPlan(env, b, group, groupPassword, password, change).answer.Ok?
    ensures DeriveNextPlan(env, b, group, groupPassword, password, change).answer == Ok(reply)
    ensures reply.Derived? && reply.address == env.address(secret)
    ensures
      var x := Replay(mid, DeriveNextPlan(env, b, group, groupPassword, password, change).changes);
      reply.address in x.vaults && x.vaults[reply.address] == Sealed(secret, password)
  {
    var pre, id, key, path := PlanPersists(env, b, group, groupPassword, password, change);
    reply, secret := DerivedReply(env, id, key, path), env.child(key, path.change, path.index);
    PersistedVault(env, mid, pre, id, key, path, password);
  }

  lemma TwoSteps(env: Crypto, w: Race, moves: seq<Move>)
    requires |moves| == 2
    ensures After(env, w, moves) == Step(env, Step(env, w, moves[0]), moves[1])
  {
    var x := Step(env, w, moves[0]);
    assert After(env, w, moves) == After(env, x, moves[1..]);
    assert moves[1..][0] == moves[1] && moves[1..][1..] == [];
    assert After(env, x, moves[1..]) == After(env, Step(env, x, moves[1]), []);
  }

  /** Two calls begin, and then the first is made whole, and the second. */
  lemma BothMade(env: Crypto, b: Books, p: Call, q: Call) returns (moves: seq<Move>)
    ensures |moves| > 1 && moves[0] == Start(0, p, Landed, GOES_WELL) && moves[1] == Start(1, q, Landed, GOES_WELL)
    ensures
      var x := After(env, Race(b, map[]), moves);
      var ps, qs := PlanOf(env, b, p, Landed, GOES_WELL).changes, PlanOf(env, b, q, Landed, GOES_WELL).changes;
      x.books == Replay(Replay(b, ps), qs) && PendingOf(x, 0) == [] && PendingOf(x, 1) == []
  {
    var ps, qs := PlanOf(env, b, p, Landed, GOES_WELL).changes, PlanOf(env, b, q, Landed, GOES_WELL).changes;
    var w := Race(b, map[]);
    var begin := [Start(0, p, Landed, GOES_WELL), Start(1, q, Landed, GOES_WELL)];
    var begun := Step(env, Step(env, w, begin[0]), begin[1]);
    TwoSteps(env, w, begin);
    assert PendingOf(begun, 0) == ps && PendingOf(begun, 1) == qs && begun.books == b;
    AloneItAdvances(env, begun, 0, |ps|);
    var one := After(env, begun, Advances(0, |ps|));
    assert ps[..|ps|] == ps && qs[..|qs|] == qs;
    AloneItAdvances(env, one, 1, |qs|);
    var go := Advances(0, |ps|) + Advances(1, |qs|);
    AfterBoth(env, begun, Advances(0, |ps|), Advances(1, |qs|));
    AfterBoth(env, w, begin, go);
    moves := begin + go;
  }
}
