/**
 The wallet half of the keystore, as it runs.

 Models `import_mnemonic_ex`, `persist_derived`, `derive_next_account`, `derive_account_at`,
 `delete_account` with `retire`, `forget_derivation`, `remove_group`, `set_group_label` and
 `create_unrelated_account` of rust-lib/src/keystore.rs. Any operation of the host may fail.
 Each method is shown to be one event of `WalletRuns`, so what holds of every run of events
 holds of every use of the store.
 */
module WalletStore {
  import opened Base
  import opened Text
  import opened Hd
  import Layout
  import opened Wallet
  import opened WalletSteps
  import opened WalletRuns

  /**
   The changes made and the answer given are those of the event. An error leaves a call that
   would have answered short of its last change, unless it had none to make.
   */
  ghost predicate Conforms(env: Crypto, was: Books, before: seq<Prim>, after: seq<Prim>, e: Event, r: Result<Reply>) {
    && after == before + Made(env, was, e)
    && (r.Ok? ==> Succeeds(env, was, e) && r == PlanAt(env, was, e).answer)
    && (r.Err? && Succeeds(env, was, e) ==> PlanAt(env, was, e).changes == [])
  }

  /** The call did all it was asked: every change of the plan, and its answer. */
  ghost predicate Completes(env: Crypto, was: Books, before: seq<Prim>, after: seq<Prim>, e: Event, r: Result<Reply>) {
    && e.luck == ALL_WELL && (e.call.ImportMnemonic? ==> e.reached == Landed)
    && r == PlanAt(env, was, e).answer && after == before + PlanAt(env, was, e).changes
  }

  const ALL_WELL: Luck := Luck(true, true, true, true, true)

  lemma ReplaySnoc(b: Books, ps: seq<Prim>, p: Prim)
    ensures Replay(b, ps + [p]) == Apply(Replay(b, ps), p)
  {
    ReplayConcat(b, ps, [p]);
    assert [p] == [p] + [];
    ReplayCons(Replay(b, ps), p, []);
  }

  class Store {
    const env: Crypto
    /** Which of the host's operations fail, by their number. */
    const fails: nat -> bool
    var tick: nat
    var books: Books
    ghost var start: Books
    /** Every change made since `start`, in order. */
    ghost var log: seq<Prim>

    /** The books are the log replayed. Stated for every list that is the log, so that no proof replays it unasked. */
    ghost predicate Valid()
      reads this
    {
      forall ps :: ps == log ==> books == Replay(start, ps)
    }

    /** From here on none of the host's operations fails. */
    ghost predicate Smooth()
      reads this
    {
      forall n :: n >= tick ==> !fails(n)
    }

    /** What the changes a call made come to. */
    lemma BooksFollow(was: Books, before: seq<Prim>, changes: seq<Prim>)
      requires Valid() && was == Replay(start, before) && log == before + changes
      ensures books == Replay(was, changes)
    {
      ReplayConcat(start, before, changes);
    }

    constructor (env: Crypto, fails: nat -> bool, books: Books)
      ensures Valid() && this.env == env && this.fails == fails
      ensures this.books == books && log == []
    {
      this.env, this.fails, this.books, this.start := env, fails, books, books;
      tick, log := 0, [];
    }

    /** One atomic change, or a failure that changes nothing. */
    method Do(p: Prim) returns (ok: bool)
      requires Valid()
      modifies this
      ensures Valid() && start == old(start)
      ensures log == old(log) + if ok then [p] else []
      ensures ok ==> forall q :: q == p ==> books == Apply(old(books), q)
      ensures old(Smooth()) ==> ok && Smooth()
    {
      ok := !fails(tick);
      tick := tick + 1;
      if ok {
        ReplaySnoc(start, log, p);
        books := Apply(books, p);
        log := log + [p];
      }
    }

    /** A change whose failure is not looked at. */
    method Attempt(p: Prim) returns (ok: bool)
      requires Valid()
      modifies this
      ensures Valid() && start == old(start)
      ensures log == old(log) + [Try(p, ok)]
      ensures old(Smooth()) ==> ok && Smooth()
    {
      ok := !fails(tick);
      tick := tick + 1;
      ReplaySnoc(start, log, Try(p, ok));
      books := Apply(books, Try(p, ok));
      log := log + [Try(p, ok)];
    }

    /** A scan, or a sidecar read that may find it unreadable. */
    method Look() returns (ok: bool)
      requires Valid()
      modifies this`tick
      ensures Valid()
      ensures old(Smooth()) ==> ok && Smooth()
    {
      ok := !fails(tick);
      tick := tick + 1;
    }

    // ---- import ------------------------------------------------------------------------

    /** `write_group_vault`. The stage guard removes the stage on every exit past its creation. */
    method WriteKey(id: string, key: Vault) returns (ok: bool, ghost done: nat, ghost guard: bool)
      requires Valid()
      modifies this
      ensures Valid() && start == old(start)
      ensures done <= 4 && (ok <==> done == 4)
      ensures log == old(log) + WriteGroupVault(id, key, done, guard)
      ensures old(Smooth()) ==> ok && guard && Smooth()
    {
      done, guard := 0, false;
      ok := Do(OpenStage(id));
      if !ok {
        return;
      }
      done := 1;
      ok := Do(TearCopy(id));
      if ok {
        done := 2;
        ok := Do(FillCopy(id, key));
        if ok {
          done := 3;
          ok := Do(Publish(id));
          if ok {
            done := 4;
          }
        }
      }
      assert log == old(log) + KeySteps(id, key)[..done];
      guard := Attempt(DropStage(id));
    }

    /** `persist_derived`: the vault, then where it came from, then that its index is used. */
    method Persist(id: string, key: nat, path: Bip44Path, password: string) returns (r: Result<Reply>, ghost done: nat)
      requires Valid() && path.Valid()
      modifies this
      ensures Valid() && start == old(start)
      ensures done <= 3 && (r.Ok? <==> done == 3) && (r.Ok? ==> r.value == DerivedReply(env, id, key, path))
      ensures log == old(log) + PersistDerived(env, id, key, path, password)[..done]
      ensures old(Smooth()) ==> r.Ok? && Smooth()
    {
      done := 0;
      var readable := Look();
      if !readable {
        return Err(Corrupt), 0;
      }
      var secret := env.child(key, path.change, path.index);
      var a := env.address(secret);
      var ok := Do(PutVault(a, Sealed(secret, password)));
      if !ok {
        return Err(VaultError), 0;
      }
      ok := Do(PutProvenance(a, DerivedFrom(id, path)));
      if !ok {
        return Err(IoError), 1;
      }
      ok := Do(Bump(id, path.index));
      if !ok {
        return Err(IoError), 2;
      }
      return Ok(Derived(a, Print(path), id, path.index)), 3;
    }

    /** Everything an import does once its record is down. */
    method Land(req: ImportRequest, id: string, path: Bip44Path, key: nat)
      returns (r: Result<Reply>, ghost reached: Reached, ghost guard: bool)
      requires Valid() && path.Valid()
      modifies this
      ensures Valid() && start == old(start)
      ensures r.Ok? <==> reached == Landed
      ensures r.Ok? ==> r.value == DerivedReply(env, id, key, path)
      ensures reached != AtRecord && (reached.AtKey? ==> reached.done < 4) && (reached.AtAccount? ==> reached.done < 3)
      ensures log == old(log) + Landing(env, req, id, path, key, reached, guard)
      ensures old(Smooth()) ==> r.Ok? && guard && Smooth()
    {
      guard := true;
      var ok := Do(NameChange(id, req.groupLabel));
      if !ok {
        return Err(IoError), AtName, false;
      }
      if req.storage == Extkey {
        ghost var steps: nat;
        ok, steps, guard := WriteKey(id, Sealed(key, req.groupPassword));
        if !ok {
          return Err(VaultError), AtKey(steps), guard;
        }
      }
      ghost var done: nat;
      r, done := Persist(id, key, path, req.password);
      reached := if r.Ok? then Landed else AtAccount(done);
      Regrouped(old(log), [NameChange(id, req.groupLabel)], KeyPart(req, id, key, 4, guard),
                PersistDerived(env, id, key, path, req.password), done);
    }

    /** The record before the key; both roll back together. */
    method CarryOut(req: ImportRequest, id: string, nowMs: nat, path: Bip44Path, key: nat)
      returns (r: Result<Reply>, ghost reached: Reached, ghost luck: Luck)
      requires Valid() && path.Valid()
      modifies this
      ensures Valid() && start == old(start)
      ensures (r.Ok? <==> reached == Landed) && (r.Ok? ==> r.value == DerivedReply(env, id, key, path))
      ensures log == old(log) + ImportChanges(env, req, id, nowMs, path, key, reached, luck)
      ensures old(Smooth()) ==> r.Ok? && luck == ALL_WELL
    {
      reached, luck := AtRecord, ALL_WELL;
      var ok := Do(PutGroup(id, NewRecord(req, nowMs)));
      if !ok {
        r := Err(IoError);
        return;
      }
      ghost var guard: bool;
      r, reached, guard := Land(req, id, path, key);
      luck := ALL_WELL.(guard := guard);
      ghost var landed := log;
      if r.Err? {
        luck := TurnBack(id, guard);
      }
      PutTogether(env, req, id, nowMs, path, key, reached, luck, old(log), landed, log);
    }

    /** `import_mnemonic_ex`. */
    method ImportMnemonicEx(req: ImportRequest, id: string, nowMs: nat) returns (r: Result<Reply>, ghost e: Event)
      requires Valid()
      modifies this
      ensures Valid() && start == old(start)
      ensures e.call == ImportMnemonic(req, id, nowMs)
      ensures Conforms(env, old(books), old(log), log, e, r)
      ensures old(Smooth()) ==> Completes(env, old(books), old(log), log, e, r)
    {
      var opening := ImportKeyOf(env, req);
      if opening.Err? {
        e := Event(ImportMnemonic(req, id, nowMs), Landed, ALL_WELL, 0);
        return Err(opening.error), e;
      }
      var (path, key) := opening.value;
      ghost var reached: Reached;
      ghost var luck: Luck;
      r, reached, luck := CarryOut(req, id, nowMs, path, key);
      ghost var changes := ImportChanges(env, req, id, nowMs, path, key, reached, luck);
      e := Event(ImportMnemonic(req, id, nowMs), reached, luck, |changes|);
      ImportConforms(env, old(books), old(log), log, e, path, key, r);
    }

    /** The rollback of an import. None of it is looked at. */
    method TurnBack(id: string, ghost guard: bool) returns (ghost luck: Luck)
      requires Valid()
      modifies this
      ensures Valid() && start == old(start)
      ensures luck.guard == guard && log == old(log) + Rollback(id, luck)
    {
      var keyGone := Attempt(DropKey(id));
      var stageGone := Attempt(DropStage(id));
      var nameGone := Attempt(DropName(id));
      var recordGone := Attempt(DropGroup(id));
      luck := Luck(guard, keyGone, stageGone, nameGone, recordGone);
    }

    // ---- deriving ----------------------------------------------------------------------

    /** Record what a held account is, if nothing does, and that its index is used. */
    method PassBy(id: string, a: string, path: Bip44Path) returns (ok: bool, ghost done: nat)
      requires Valid() && path.Valid()
      modifies this
      ensures Valid() && start == old(start)
      ensures done <= 2 && (ok <==> done == 2)
      ensures log == old(log) + [FillProvenance(a, DerivedFrom(id, path)), Bump(id, path.index)][..done]
      ensures old(Smooth()) ==> ok && Smooth()
    {
      done := 0;
      ok := Do(FillProvenance(a, DerivedFrom(id, path)));
      if ok {
        done := 1;
        ok := Do(Bump(id, path.index));
        done := if ok then 2 else 1;
      }
    }

    /** One turn of the loop of `derive_next_account`. */
    method Visit(id: string, key: nat, account: nat, change: nat, password: string, begin: Index, held: set<string>, offset: nat)
      returns (finished: bool, r: Result<Reply>, ghost done: nat)
      requires Valid() && offset < MAX_INDEX_SCAN
      modifies this
      ensures Valid() && start == old(start)
      ensures
        var rest := Walk(env, held, id, key, account, change, password, begin, offset);
        var next := Walk(env, held, id, key, account, change, password, begin, offset + 1);
        && (finished ==> Partly(rest, old(log), log, done, r))
        && (!finished ==> Ahead(rest, next, old(log), log, done))
      ensures old(Smooth()) ==> Smooth() && (finished ==> Wholly(Walk(env, held, id, key, account, change, password, begin, offset), done, r))
    {
      finished, done := true, 0;
      var index := Saturating(begin + offset);
      var path := NewPath(account, change, index);
      if path.Err? {
        return true, Err(path.error), 0;
      }
      var a := env.address(env.child(key, change, index));
      if a !in held {
        r, done := Persist(id, key, path.value, password);
        return true, r, done;
      }
      var ok;
      ok, done := PassBy(id, a, path.value);
      ghost var next := Walk(env, held, id, key, account, change, password, begin, offset + 1).changes;
      HeadOf([FillProvenance(a, DerivedFrom(id, path.value)), Bump(id, index)], next, done);
      return !ok, Err(IoError), done;
    }

    /** One turn, counted from the first. */
    method VisitAhead(id: string, key: nat, account: nat, change: nat, password: string, begin: Index, held: set<string>,
                      offset: nat, ghost plan: Plan, ghost before: seq<Prim>, ghost made: nat)
      returns (finished: bool, r: Result<Reply>, ghost total: nat)
      requires Valid() && offset < MAX_INDEX_SCAN
      requires Ahead(plan, Walk(env, held, id, key, account, change, password, begin, offset), before, log, made)
      modifies this
      ensures Valid() && start == old(start)
      ensures finished ==> Partly(plan, before, log, total, r)
      ensures !finished ==>
        Ahead(plan, Walk(env, held, id, key, account, change, password, begin, offset + 1), before, log, total)
      ensures old(Smooth()) ==> Smooth() && (finished ==> Wholly(plan, total, r))
    {
      ghost var rest := Walk(env, held, id, key, account, change, password, begin, offset);
      ghost var done: nat;
      finished, r, done := Visit(id, key, account, change, password, begin, held, offset);
      total := made + done;
      if finished {
        PartlyOn(plan, rest, before, old(log), log, made, done, r);
      } else {
        Onward(plan, rest, Walk(env, held, id, key, account, change, password, begin, offset + 1), before, old(log), log, made, done);
      }
    }

    /** From offset `first` on, walk past what is held, taking note of it, and take the first free index. */
    method WalkOn(id: string, key: nat, account: nat, change: nat, password: string, begin: Index, held: set<string>, first: nat)
      returns (r: Result<Reply>, ghost made: nat)
      requires Valid() && first <= MAX_INDEX_SCAN
      modifies this
      ensures Valid() && start == old(start)
      ensures Partly(Walk(env, held, id, key, account, change, password, begin, first), old(log), log, made, r)
      ensures old(Smooth()) ==> Wholly(Walk(env, held, id, key, account, change, password, begin, first), made, r)
    {
      ghost var plan := Walk(env, held, id, key, account, change, password, begin, first);
      made := 0;
      for offset := first to MAX_INDEX_SCAN
        invariant Valid() && start == old(start)
        invariant Ahead(plan, Walk(env, held, id, key, account, change, password, begin, offset), old(log), log, made)
        invariant old(Smooth()) ==> Smooth()
      {
        var finished;
        finished, r, made := VisitAhead(id, key, account, change, password, begin, held, offset, plan, old(log), made);
        if finished {
          return r, made;
        }
      }
      WalkRunsOut(env, held, id, key, account, change, password, begin);
      AheadEnds(plan, Walk(env, held, id, key, account, change, password, begin, MAX_INDEX_SCAN), old(log), log, made);
      return Err(Error.Refused), made;
    }

    method DeriveNextAccount(group: Option<string>, groupPassword: string, password: string, change: nat)
      returns (r: Result<Reply>, ghost e: Event)
      requires Valid()
      modifies this
      ensures Valid() && start == old(start)
      ensures e.call == DeriveNext(group, groupPassword, password, change)
      ensures Conforms(env, old(books), old(log), log, e, r)
      ensures old(Smooth()) ==> Completes(env, old(books), old(log), log, e, r)
    {
      e := Event(DeriveNext(group, groupPassword, password, change), AtRecord, ALL_WELL, 0);
      var readable := Look();
      if !readable {
        return Err(Corrupt), e;
      }
      var derivable := DerivableGroup(books, group);
      if derivable.Err? {
        return Err(derivable.error), e;
      }
      var (id, account) := derivable.value;
      var key := OpenGroupKey(books, id, groupPassword);
      if key.Err? || id !in books.groups {
        return Err(if key.Err? then key.error else NotFound), e;
      }
      var begin := NextIndex(books, id, books.groups[id]);
      ghost var made: nat;
      r, made := WalkOn(id, key.value, account, change, password, begin, books.vaults.Keys, 0);
      e := e.(cut := made);
    }

    method DeriveAccountAt(id: string, groupPassword: string, password: string, asked: Option<nat>, change: nat, index: nat)
      returns (r: Result<Reply>, ghost e: Event)
      requires Valid()
      modifies this
      ensures Valid() && start == old(start)
      ensures e.call == DeriveAt(id, groupPassword, password, asked, change, index)
      ensures Conforms(env, old(books), old(log), log, e, r)
      ensures old(Smooth()) ==> Completes(env, old(books), old(log), log, e, r)
    {
      e := Event(DeriveAt(id, groupPassword, password, asked, change, index), AtRecord, ALL_WELL, 0);
      var readable := Look();
      if !readable {
        return Err(Corrupt), e;
      }
      var derivable := DerivableGroup(books, Some(id));
      if derivable.Err? {
        return Err(derivable.error), e;
      }
      var account := derivable.value.1;
      if asked.Some? && asked.value != account {
        return Err(Error.Refused), e;
      }
      var path := NewPath(account, change, index);
      if path.Err? {
        return Err(path.error), e;
      }
      var key := OpenGroupKey(books, id, groupPassword);
      if key.Err? {
        return Err(key.error), e;
      }
      if env.address(env.child(key.value, change, index)) in books.vaults {
        return Err(Error.Refused), e;
      }
      ghost var made: nat;
      r, made := Persist(id, key.value, path.value, password);
      e := e.(cut := made);
      assert PlanAt(env, old(books), e).changes == PersistDerived(env, id, key.value, path.value, password);
    }

    // ---- the rest ----------------------------------------------------------------------

    /** A raw, foreign or random key. */
    method ImportPlainKey(origin: string, secret: nat, password: string) returns (r: Result<Reply>, ghost e: Event)
      requires Valid()
      modifies this
      ensures Valid() && start == old(start)
      ensures e.call == ImportKey(origin, secret, password)
      ensures Conforms(env, old(books), old(log), log, e, r)
      ensures old(Smooth()) ==> Completes(env, old(books), old(log), log, e, r)
    {
      var a := env.address(secret);
      e := Event(ImportKey(origin, secret, password), AtRecord, ALL_WELL, 0);
      var readable := Look();
      if !readable {
        return Err(Corrupt), e;
      }
      var ok := Do(PutVault(a, Sealed(secret, password)));
      if !ok {
        return Err(VaultError), e;
      }
      e := e.(cut := 1);
      ok := Do(PutProvenance(a, Provenance(origin, "", "", None)));
      if !ok {
        return Err(IoError), e;
      }
      e := e.(cut := 2);
      return Ok(Imported(a)), e;
    }

    /** `retire`: what the account was is forgotten, and its index never handed out again. */
    method Retire(a: string) returns (ok: bool, ghost made: nat)
      requires Valid()
      modifies this
      ensures Valid() && start == old(start)
      ensures made <= |RetireChanges(old(books), a)| && (ok <==> made == |RetireChanges(old(books), a)|)
      ensures log == old(log) + RetireChanges(old(books), a)[..made]
      ensures old(Smooth()) ==> ok && Smooth()
    {
      made := 0;
      var removed := if a in books.provenance then Some(books.provenance[a]) else None;
      ok := Do(DropProvenance(a));
      if !ok {
        return;
      }
      made := 1;
      if removed.None? || removed.value.index.None? || removed.value.group == "" {
        return;
      }
      ok := Do(RetireIndex(removed.value.group, removed.value.index.value));
      made := if ok then 2 else 1;
    }

    method Delete(address: string, password: string) returns (r: Result<Reply>, ghost e: Event)
      requires Valid()
      modifies this
      ensures Valid() && start == old(start)
      ensures e.call == DeleteAccount(address, password)
      ensures Conforms(env, old(books), old(log), log, e, r)
      ensures old(Smooth()) ==> Completes(env, old(books), old(log), log, e, r)
    {
      e := Event(DeleteAccount(address, password), AtRecord, ALL_WELL, 0);
      var a := ParseAddress(address);
      if a.Err? {
        return Err(a.error), e;
      }
      var readable := Look();
      if !readable {
        return Err(Corrupt), e;
      }
      if a.value !in books.vaults {
        return Ok(Deleted(false)), e;
      }
      var signer := SignerOf(env, books, address, password);
      if signer.Err? {
        return Err(signer.error), e;
      }
      ghost var made: nat;
      var ok;
      ok, made := Destroy(a.value);
      e := e.(cut := made);
      return if ok then Ok(Deleted(true)) else Err(IoError), e;
    }

    /** The vault goes first, then its place in the bookkeeping. */
    method Destroy(a: string) returns (ok: bool, ghost made: nat)
      requires Valid()
      modifies this
      ensures Valid() && start == old(start)
      ensures
        var changes := [DropVault(a)] + RetireChanges(old(books), a);
        made <= |changes| && (ok <==> made == |changes|) && log == old(log) + changes[..made]
      ensures old(Smooth()) ==> ok && Smooth()
    {
      ghost var was := books;
      made := 0;
      ok := Do(DropVault(a));
      if ok {
        assert books == Apply(was, DropVault(a));
        ghost var retiring := RetireChanges(books, a);
        assert retiring == RetireChanges(was, a);
        ghost var more: nat;
        ok, more := Retire(a);
        assert ([DropVault(a)] + retiring)[..1 + more] == [DropVault(a)] + retiring[..more];
        made := 1 + more;
      }
    }

    /** Both paths the key can occupy. That the record follows is tried, and reported. */
    method Forget(id: string) returns (r: Result<Reply>, ghost e: Event)
      requires Valid()
      modifies this
      ensures Valid() && start == old(start)
      ensures e.call == ForgetDerivation(id)
      ensures Conforms(env, old(books), old(log), log, e, r)
      ensures old(Smooth()) ==> Completes(env, old(books), old(log), log, e, r)
    {
      e := Event(ForgetDerivation(id), AtRecord, ALL_WELL, 0);
      if !Layout.IsGroupId(id) {
        return Err(InvalidParams), e;
      }
      var key, stage, recorded := id in books.keys, id in books.staged, id in books.groups;
      ghost var first := if key then [DropKey(id)] else [];
      ghost var second := if stage then [DropStage(id)] else [];
      if !key && !stage {
        return Err(NotFound), e;
      }
      var ok := true;
      if key {
        ok := Do(DropKey(id));
        if !ok {
          return Err(IoError), e;
        }
      }
      e := e.(cut := |first|);
      if stage {
        ok := Do(DropStage(id));
        if !ok {
          return Err(IoError), e;
        }
      }
      var followed := Attempt(SetPlain(id));
      e := Event(ForgetDerivation(id), AtRecord, ALL_WELL.(record := followed), |first| + |second| + 1);
      assert log == old(log) + (first + second + [Try(SetPlain(id), followed)]);
      return Ok(Forgotten(followed && recorded, followed && !recorded, stage)), e;
    }

    /** The record first, then the name, and only of a wallet that holds nothing. */
    method RemoveWallet(id: string) returns (r: Result<Reply>, ghost e: Event)
      requires Valid()
      modifies this
      ensures Valid() && start == old(start)
      ensures e.call == RemoveGroup(id)
      ensures Conforms(env, old(books), old(log), log, e, r)
      ensures old(Smooth()) ==> Completes(env, old(books), old(log), log, e, r)
    {
      e := Event(RemoveGroup(id), AtRecord, ALL_WELL, 0);
      if !Layout.IsGroupId(id) {
        return Err(InvalidParams), e;
      }
      var readable := Look();
      if !readable {
        return Err(Corrupt), e;
      }
      if !HoldsNothing(books, id) {
        return Err(Error.Refused), e;
      }
      var recorded, named := id in books.groups, id in books.names;
      if !recorded && !named {
        return Err(NotFound), e;
      }
      if recorded {
        var ok := Do(DropGroup(id));
        if !ok {
          return Err(IoError), e;
        }
        e := e.(cut := 1);
      }
      if named {
        var ok := Do(DropName(id));
        if !ok {
          return Err(IoError), e;
        }
        e := e.(cut := e.cut + 1);
      }
      return Ok(Removed(recorded, named)), e;
    }

    /** A name over something held is paid for with one of the wallet's own vaults. */
    method NameWallet(id: string, text: string, address: string, password: string) returns (r: Result<Reply>, ghost e: Event)
      requires Valid()
      modifies this
      ensures Valid() && start == old(start)
      ensures e.call == SetGroupLabel(id, text, address, password)
      ensures Conforms(env, old(books), old(log), log, e, r)
      ensures old(Smooth()) ==> Completes(env, old(books), old(log), log, e, r)
    {
      e := Event(SetGroupLabel(id, text, address, password), AtRecord, ALL_WELL, 0);
      if !Layout.IsGroupId(id) {
        return Err(InvalidParams), e;
      }
      var readable := Look();
      if !readable {
        return Err(Corrupt), e;
      }
      if id !in books.groups && HoldsNothing(books, id) && id !in books.names {
        return Err(InvalidParams), e;
      }
      var custody := LabelCustody(env, books, id, text, address, password);
      if custody.Err? {
        return Err(custody.error), e;
      }
      if id in books.groups && Trim(books.groups[id].oldLabel) != "" {
        var ok := Do(ClearOldLabel(id));
        if !ok {
          return Err(IoError), e;
        }
        e := e.(cut := 1);
      }
      var ok := Do(NameChange(id, text));
      if !ok {
        return Err(IoError), e;
      }
      e := e.(cut := e.cut + 1);
      return Ok(Named), e;
    }
  }

  /** `made` of the plan's changes were made, all of them if it answered. */
  ghost predicate Partly(plan: Plan, before: seq<Prim>, after: seq<Prim>, made: nat, r: Result<Reply>) {
    && made <= |plan.changes| && after == before + plan.changes[..made]
    && (r.Ok? ==> made == |plan.changes| && r == plan.answer)
    && (r.Err? && plan.answer.Ok? ==> made < |plan.changes|)
  }

  /** All of them were, and this is the plan's answer. */
  predicate Wholly(plan: Plan, made: nat, r: Result<Reply>) {
    made == |plan.changes| && r == plan.answer
  }

  /** `made` of the plan's changes were made, and `rest` is what is left of it. */
  ghost predicate Ahead(plan: Plan, rest: Plan, before: seq<Prim>, after: seq<Prim>, made: nat) {
    && made <= |plan.changes| && after == before + plan.changes[..made]
    && plan.changes[made..] == rest.changes && plan.answer == rest.answer
  }

  lemma WalkRunsOut(env: Crypto, held: set<string>, id: string, key: nat, account: nat, change: nat, password: string, begin: Index)
    ensures Walk(env, held, id, key, account, change, password, begin, MAX_INDEX_SCAN) == Plan([], Err(Error.Refused))
  {
  }

  lemma AheadEnds(plan: Plan, rest: Plan, before: seq<Prim>, after: seq<Prim>, made: nat)
    requires Ahead(plan, rest, before, after, made) && rest == Plan([], Err(Error.Refused))
    ensures Partly(plan, before, after, made, Err(Error.Refused))
  {
  }

  lemma Onward(plan: Plan, rest: Plan, next: Plan, before: seq<Prim>, mid: seq<Prim>, after: seq<Prim>, made: nat, done: nat)
    requires Ahead(plan, rest, before, mid, made) && Ahead(rest, next, mid, after, done)
    ensures Ahead(plan, next, before, after, made + done)
  {
    TakeMore(plan.changes, made, done);
  }

  lemma PartlyOn(plan: Plan, rest: Plan, before: seq<Prim>, mid: seq<Prim>, after: seq<Prim>, made: nat, done: nat, r: Result<Reply>)
    requires Ahead(plan, rest, before, mid, made) && Partly(rest, mid, after, done, r)
    ensures Partly(plan, before, after, made + done, r)
  {
    TakeMore(plan.changes, made, done);
  }

  lemma HeadOf(head: seq<Prim>, tail: seq<Prim>, n: nat)
    requires n <= |head|
    ensures (head + tail)[..n] == head[..n] && (head + tail)[|head|..] == tail
  {
  }

  lemma TakeMore(ps: seq<Prim>, made: nat, more: nat)
    requires made + more <= |ps|
    ensures ps[..made] + ps[made..][..more] == ps[..made + more] && ps[made..][more..] == ps[made + more..]
  {
  }

  // ---- the parts of an import, put together --------------------------------------------

  lemma Regrouped(before: seq<Prim>, name: seq<Prim>, keys: seq<Prim>, account: seq<Prim>, done: nat)
    requires done <= 3 == |account|
    ensures before + name + keys + account[..done] == before + (name + (keys + account[..done]))
    ensures account[..3] == account
  {
  }

  lemma PutTogether(env: Crypto, req: ImportRequest, id: string, nowMs: nat, path: Bip44Path, key: nat,
                    reached: Reached, luck: Luck, before: seq<Prim>, landed: seq<Prim>, after: seq<Prim>)
    requires path.Valid() && reached != AtRecord
    requires landed == before + [PutGroup(id, NewRecord(req, nowMs))] + Landing(env, req, id, path, key, reached, luck.guard)
    requires after == landed + if reached == Landed then [] else Rollback(id, luck)
    ensures after == before + ImportChanges(env, req, id, nowMs, path, key, reached, luck)
  {
  }

  lemma ImportConforms(env: Crypto, was: Books, before: seq<Prim>, after: seq<Prim>, e: Event, path: Bip44Path, key: nat,
                       r: Result<Reply>)
    requires e.call.ImportMnemonic? && ImportKeyOf(env, e.call.req) == Ok((path, key))
    requires r.Ok? <==> e.reached == Landed
    requires r.Ok? ==> r.value == DerivedReply(env, e.call.id, key, path)
    requires
      var changes := ImportChanges(env, e.call.req, e.call.id, e.call.nowMs, path, key, e.reached, e.luck);
      after == before + changes && e.cut >= |changes|
    ensures Conforms(env, was, before, after, e, r)
  {
  }
}
