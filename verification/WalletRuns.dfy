/**
 Whole runs of the wallet: any sequence of calls, each one completed, failed or killed at any
 of its changes.
 */
module WalletRuns {
  import opened Base
  import opened Text
  import opened Hd
  import opened Wallet
  import opened WalletSteps

  /** One call and how it ended: `cut` of its changes were made. */
  datatype Event = Event(call: Call, reached: Reached, luck: Luck, cut: nat)

  function PlanAt(env: Crypto, b: Books, e: Event): Plan {
    PlanOf(env, b, e.call, e.reached, e.luck)
  }

  function Made(env: Crypto, b: Books, e: Event): seq<Prim> {
    var ps := PlanAt(env, b, e).changes;
    if e.cut < |ps| then ps[..e.cut] else ps
  }

  function Next(env: Crypto, b: Books, e: Event): Books {
    Replay(b, Made(env, b, e))
  }

  /** The call returned `Ok`. */
  predicate Succeeds(env: Crypto, b: Books, e: Event) {
    PlanAt(env, b, e).answer.Ok? && e.cut >= |PlanAt(env, b, e).changes|
  }

  /**
   `states[i]` is what is on disk before call `i`. The trigger keeps a step folded until a
   proof asks for it.
   */
  ghost predicate Ran(env: Crypto, events: seq<Event>, states: seq<Books>) {
    && |states| == |events| + 1
    && forall i {:trigger Next(env, states[i], events[i])} :: 0 <= i < |events| ==> states[i + 1] == Next(env, states[i], events[i])
  }

  lemma {:induction false} ChainHappens(next: (Books, Event) -> Books, b: Books, events: seq<Event>) returns (states: seq<Books>)
    ensures |states| == |events| + 1 && states[0] == b
    ensures forall i :: 0 <= i < |events| ==> states[i + 1] == next(states[i], events[i])
  {
    if events == [] {
      states := [b];
    } else {
      var n := |events| - 1;
      var init := ChainHappens(next, b, events[..n]);
      states := init + [next(init[n], events[n])];
    }
  }

  /** Any calls, from any books, make a run. */
  lemma EveryRunHappens(env: Crypto, b: Books, events: seq<Event>) returns (states: seq<Books>)
    ensures Ran(env, events, states) && states[0] == b
  {
    var next := (b, e) => Next(env, b, e);
    states := ChainHappens(next, b, events);
    forall i | 0 <= i < |events| ensures states[i + 1] == Next(env, states[i], events[i]) {
      assert states[i + 1] == next(states[i], events[i]);
    }
  }

  predicate Imports(e: Event, id: string) {
    e.call.ImportMnemonic? && e.call.id == id
  }

  // ---- holding nothing is for good -----------------------------------------------------

  /** A change that could give a wallet a key or an account. */
  predicate Feeds(p: Prim, id: string) {
    match p
    case TearCopy(x) => x == id
    case FillCopy(x, _) => x == id
    case PutProvenance(_, q) => q.group == id
    case FillProvenance(_, q) => q.group == id
    case _ => false
  }

  predicate NoneFeeds(ps: seq<Prim>, id: string) {
    forall i :: 0 <= i < |ps| ==> !Feeds(ps[i], id)
  }

  lemma UnfedStep(b: Books, p: Prim, id: string)
    requires HoldsNothing(b, id) && !Feeds(p, id)
    ensures HoldsNothing(Apply(b, p), id)
  {
    assert AccountsOf(Apply(b, p), id) <= AccountsOf(b, id);
  }

  lemma {:induction false} UnfedRun(b: Books, ps: seq<Prim>, id: string)
    requires HoldsNothing(b, id) && NoneFeeds(ps, id)
    ensures HoldsNothing(Replay(b, ps), id)
    decreases |ps|
  {
    if ps != [] {
      UnfedStep(b, ps[0], id);
      UnfedRun(Apply(b, ps[0]), ps[1..], id);
    }
  }

  lemma {:induction false} WalkFeedsItself(env: Crypto, held: set<string>, id: string, key: nat, account: nat, change: nat,
                                           password: string, start: Index, offset: nat, other: string)
    requires other != id
    ensures NoneFeeds(Walk(env, held, id, key, account, change, password, start, offset).changes, other)
    decreases MAX_INDEX_SCAN - offset
  {
    if offset < MAX_INDEX_SCAN {
      WalkFeedsItself(env, held, id, key, account, change, password, start, offset + 1, other);
    }
  }

  lemma ForwardFeedsItself(b: Books, ps: seq<Prim>, id: string, other: string)
    requires AllForward(ps, id) && RecordsFor(ps, id) && other != id
    ensures NoneFeeds(ps, other)
  {
    forall i | 0 <= i < |ps| ensures !Feeds(ps[i], other) {
      assert Forward(ps[i], id);
    }
  }

  lemma ImportFeedsItself(env: Crypto, b: Books, e: Event, other: string)
    requires e.call.ImportMnemonic? && e.call.id != other
    ensures NoneFeeds(PlanAt(env, b, e).changes, other)
  {
    var ImportMnemonic(req, id, nowMs) := e.call;
    if ImportKeyOf(env, req).Ok? {
      var (path, key) := ImportKeyOf(env, req).value;
      var ps := ImportForward(env, req, id, nowMs, path, key, e.reached, e.luck);
      ImportGoesForward(env, req, id, nowMs, path, key, e.reached, e.luck);
      ProvenanceOfForward(env, req, id, nowMs, path, key, e.reached, e.luck);
      ForwardFeedsItself(b, ps, id, other);
      RollbackFeedsNothing(id, e.luck, other);
      NeitherFeeds(ps, if TurnsBack(e.reached) then Rollback(id, e.luck) else [], other);
    }
  }

  lemma RollbackFeedsNothing(id: string, luck: Luck, other: string)
    ensures NoneFeeds(Rollback(id, luck), other)
  {
  }

  lemma NeitherFeeds(x: seq<Prim>, y: seq<Prim>, id: string)
    requires NoneFeeds(x, id) && NoneFeeds(y, id)
    ensures NoneFeeds(x + y, id)
  {
  }

  /** What accounts these changes put on record, they put on record for this wallet. */
  predicate RecordsFor(ps: seq<Prim>, id: string) {
    forall i :: 0 <= i < |ps| && ps[i].PutProvenance? ==> ps[i].p.group == id
  }

  lemma RecordsBoth(x: seq<Prim>, y: seq<Prim>, id: string)
    requires RecordsFor(x, id) && RecordsFor(y, id)
    ensures RecordsFor(x + y, id)
  {
  }

  lemma KeysRecordNothing(req: ImportRequest, id: string, key: nat, done: nat, guard: bool)
    ensures RecordsFor(KeyPart(req, id, key, done, guard), id)
  {
  }

  lemma AccountRecords(env: Crypto, id: string, key: nat, path: Bip44Path, password: string, n: nat)
    requires path.Valid() && n <= 3
    ensures |PersistDerived(env, id, key, path, password)| == 3
    ensures RecordsFor(PersistDerived(env, id, key, path, password)[..n], id) && RecordsFor(PersistDerived(env, id, key, path, password), id)
  {
  }

  lemma LandingRecords(env: Crypto, req: ImportRequest, id: string, path: Bip44Path, key: nat, reached: Reached, guard: bool)
    requires path.Valid()
    ensures RecordsFor(Landing(env, req, id, path, key, reached, guard), id)
  {
    var name, account := [NameChange(id, req.groupLabel)], PersistDerived(env, id, key, path, req.password);
    match reached {
      case AtRecord =>
      case AtName =>
      case AtKey(done) =>
        KeysRecordNothing(req, id, key, if done < 4 then done else 3, guard);
        RecordsBoth(name, KeyPart(req, id, key, if done < 4 then done else 3, guard), id);
      case AtAccount(done) =>
        KeysRecordNothing(req, id, key, 4, guard);
        AccountRecords(env, id, key, path, req.password, if done < 3 then done else 2);
        RecordsBoth(KeyPart(req, id, key, 4, guard), account[..if done < 3 then done else 2], id);
        RecordsBoth(name, KeyPart(req, id, key, 4, guard) + account[..if done < 3 then done else 2], id);
      case Landed =>
        KeysRecordNothing(req, id, key, 4, guard);
        AccountRecords(env, id, key, path, req.password, 3);
        RecordsBoth(KeyPart(req, id, key, 4, guard), account, id);
        RecordsBoth(name, KeyPart(req, id, key, 4, guard) + account, id);
    }
  }

  lemma ProvenanceOfForward(env: Crypto, req: ImportRequest, id: string, nowMs: nat, path: Bip44Path, key: nat,
                            reached: Reached, luck: Luck)
    requires path.Valid()
    ensures RecordsFor(ImportForward(env, req, id, nowMs, path, key, reached, luck), id)
  {
    if reached != AtRecord {
      LandingRecords(env, req, id, path, key, reached, luck.guard);
      RecordsBoth([PutGroup(id, NewRecord(req, nowMs))], Landing(env, req, id, path, key, reached, luck.guard), id);
    }
  }

  lemma DerivingNeedsAKey(env: Crypto, b: Books, e: Event, id: string)
    requires HoldsNothing(b, id) && (e.call.DeriveNext? || e.call.DeriveAt?)
    ensures NoneFeeds(PlanAt(env, b, e).changes, id)
  {
    var c := e.call;
    if c.DeriveNext? {
      var group := DerivableGroup(b, c.group);
      if group.Ok? && OpenGroupKey(b, group.value.0, c.groupPassword).Ok? && group.value.0 in b.groups {
        WalkFeedsItself(env, b.vaults.Keys, group.value.0, OpenGroupKey(b, group.value.0, c.groupPassword).value, group.value.1,
                        c.change, c.password, NextIndex(b, group.value.0, b.groups[group.value.0]), 0, id);
      }
    }
  }

  lemma DeletingFeedsNothing(env: Crypto, b: Books, address: string, password: string, id: string)
    ensures NoneFeeds(DeletePlan(env, b, address, password).changes, id)
  {
  }

  lemma OtherCallsFeedNothing(env: Crypto, b: Books, e: Event, id: string)
    requires id != "" && !e.call.ImportMnemonic? && !e.call.DeriveNext? && !e.call.DeriveAt?
    ensures NoneFeeds(PlanAt(env, b, e).changes, id)
  {
    match e.call {
      case ImportKey(_, _, _) =>
      case DeleteAccount(address, password) => DeletingFeedsNothing(env, b, address, password, id);
      case ForgetDerivation(other) => ForgettingFeedsNothing(b, other, e.luck, id);
      case RemoveGroup(other) => RemovingFeedsNothing(b, other, id);
      case SetGroupLabel(other, text, address, password) => NamingFeedsNothing(env, b, other, text, address, password, id);
    }
  }

  lemma ForgettingFeedsNothing(b: Books, other: string, luck: Luck, id: string)
    ensures NoneFeeds(ForgetPlan(b, other, luck).changes, id)
  {
  }

  lemma RemovingFeedsNothing(b: Books, other: string, id: string)
    ensures NoneFeeds(RemoveGroupPlan(b, other).changes, id)
  {
  }

  lemma NamingFeedsNothing(env: Crypto, b: Books, other: string, text: string, address: string, password: string, id: string)
    ensures NoneFeeds(SetLabelPlan(env, b, other, text, address, password).changes, id)
  {
  }

  /** Only a wallet with a live key, or an import, gains anything. */
  lemma EmptyIsNeverFed(env: Crypto, b: Books, e: Event, id: string)
    requires HoldsNothing(b, id) && id != "" && !Imports(e, id)
    ensures NoneFeeds(PlanAt(env, b, e).changes, id)
  {
    if e.call.ImportMnemonic? {
      ImportFeedsItself(env, b, e, id);
    } else if e.call.DeriveNext? || e.call.DeriveAt? {
      DerivingNeedsAKey(env, b, e, id);
    } else {
      OtherCallsFeedNothing(env, b, e, id);
    }
  }

  lemma EmptyStep(env: Crypto, b: Books, e: Event, id: string)
    requires HoldsNothing(b, id) && id != "" && !Imports(e, id)
    ensures HoldsNothing(Next(env, b, e), id)
  {
    EmptyIsNeverFed(env, b, e, id);
    assert NoneFeeds(Made(env, b, e), id);
    UnfedRun(b, Made(env, b, e), id);
  }

  lemma EmptyAt(env: Crypto, events: seq<Event>, states: seq<Books>, i: nat, id: string)
    requires Ran(env, events, states) && i < |events| && id != "" && !Imports(events[i], id)
    requires HoldsNothing(states[i], id)
    ensures HoldsNothing(states[i + 1], id)
  {
    EmptyStep(env, states[i], events[i], id);
  }

  /** No key at either path and no account: nothing that runs later gives the wallet either. */
  lemma {:induction false} HoldingNothingIsForGood(env: Crypto, events: seq<Event>, states: seq<Books>, i: nat, j: nat, id: string)
    requires Ran(env, events, states) && i <= j <= |events| && id != "" && HoldsNothing(states[i], id)
    requires forall m :: i <= m < j ==> !Imports(events[m], id)
    ensures HoldsNothing(states[j], id)
  {
    if i < j {
      HoldingNothingIsForGood(env, events, states, i, j - 1, id);
      EmptyAt(env, events, states, j - 1, id);
    }
  }

  // ---- whose names they are ------------------------------------------------------------

  /** The caller opened one of the wallet's own vaults. */
  predicate Proves(env: Crypto, b: Books, c: Call) {
    && c.SetGroupLabel?
    && (ProveGroupCustody(b, c.id, c.password).Ok?
        || (ParseAddress(c.address).Ok? && ParseAddress(c.address).value in AccountsOf(b, c.id)
            && SignerOf(env, b, c.address, c.password).Ok?))
  }

  function NameOf(b: Books, id: string): Option<string> {
    if id in b.names then Some(b.names[id]) else None
  }

  predicate Names(p: Prim, id: string) {
    p.PutName? && p.id == id
  }

  /** After some changes a name is the old one, or one of those the changes put. */
  lemma {:induction false} NamesOfRun(b: Books, ps: seq<Prim>, id: string)
    ensures
      || NameOf(Replay(b, ps), id) == None
      || NameOf(Replay(b, ps), id) == NameOf(b, id)
      || exists i :: 0 <= i < |ps| && Names(ps[i], id) && NameOf(Replay(b, ps), id) == Some(ps[i].name)
    decreases |ps|
  {
    if ps != [] {
      NameStep(b, ps[0], id);
      NamesOfRun(Apply(b, ps[0]), ps[1..], id);
      if i :| 0 <= i < |ps[1..]| && Names(ps[1..][i], id) && NameOf(Replay(b, ps), id) == Some(ps[1..][i].name) {
        assert Names(ps[i + 1], id);
      }
    }
  }

  lemma NameStep(b: Books, p: Prim, id: string)
    ensures
      || NameOf(Apply(b, p), id) == None
      || NameOf(Apply(b, p), id) == NameOf(b, id)
      || (Names(p, id) && NameOf(Apply(b, p), id) == Some(p.name))
  {
  }

  lemma {:induction false} WalkNamesNothing(env: Crypto, held: set<string>, id: string, key: nat, account: nat, change: nat,
                                            password: string, start: Index, offset: nat)
    ensures forall p :: p in Walk(env, held, id, key, account, change, password, start, offset).changes ==> !p.PutName?
    decreases MAX_INDEX_SCAN - offset
  {
    if offset < MAX_INDEX_SCAN {
      WalkNamesNothing(env, held, id, key, account, change, password, start, offset + 1);
    }
  }

  predicate Writes(c: Call, id: string, name: string) {
    || (c.ImportMnemonic? && c.id == id && Trim(c.req.groupLabel) == name)
    || (c.SetGroupLabel? && c.id == id && Trim(c.text) == name)
  }

  lemma ForwardNames(env: Crypto, req: ImportRequest, id: string, nowMs: nat, path: Bip44Path, key: nat,
                     reached: Reached, luck: Luck, p: Prim)
    requires path.Valid() && p in ImportForward(env, req, id, nowMs, path, key, reached, luck) && p.PutName?
    ensures p == NameChange(id, req.groupLabel)
  {
    NoNameInKeys(req, id, key, 4, luck.guard);
    if reached.AtKey? {
      NoNameInKeys(req, id, key, if reached.done < 4 then reached.done else 3, luck.guard);
    }
    var account := PersistDerived(env, id, key, path, req.password);
    assert forall i :: 0 <= i < |account| ==> !account[i].PutName?;
  }

  lemma NoNameInKeys(req: ImportRequest, id: string, key: nat, done: nat, guard: bool)
    ensures forall p :: p in KeyPart(req, id, key, done, guard) ==> !p.PutName?
  {
  }

  lemma ImportNames(env: Crypto, b: Books, e: Event, p: Prim)
    requires e.call.ImportMnemonic? && p in PlanAt(env, b, e).changes && p.PutName?
    ensures Writes(e.call, p.id, p.name)
  {
    var ImportMnemonic(req, id, nowMs) := e.call;
    var (path, key) := ImportKeyOf(env, req).value;
    assert p in ImportForward(env, req, id, nowMs, path, key, e.reached, e.luck);
    ForwardNames(env, req, id, nowMs, path, key, e.reached, e.luck, p);
  }

  /** A name is written by an import or a rename of that wallet, and by nothing else. */
  lemma WhoNames(env: Crypto, b: Books, e: Event, p: Prim)
    requires p in PlanAt(env, b, e).changes && p.PutName?
    ensures Writes(e.call, p.id, p.name)
  {
    match e.call {
      case ImportMnemonic(_, _, _) => ImportNames(env, b, e, p);
      case DeriveNext(group, groupPassword, password, change) =>
        var id := DerivableGroup(b, group).value.0;
        WalkNamesNothing(env, b.vaults.Keys, id, OpenGroupKey(b, id, groupPassword).value, DerivableGroup(b, group).value.1,
                         change, password, NextIndex(b, id, b.groups[id]), 0);
      case DeriveAt(_, _, _, _, _, _) =>
      case ImportKey(_, _, _) =>
      case DeleteAccount(_, _) =>
      case ForgetDerivation(_) =>
      case RemoveGroup(_) =>
      case SetGroupLabel(_, _, _, _) =>
    }
  }

  /** A rename of a wallet that holds something needed one of its vaults opened. */
  lemma RenamesAreProved(env: Crypto, b: Books, e: Event, p: Prim)
    requires e.call.SetGroupLabel? && p in PlanAt(env, b, e).changes && p.PutName?
    ensures HoldsNothing(b, p.id) || Proves(env, b, e.call)
  {
  }

  /** Whoever wrote the name that stands: its own import, or a call that opened one of its vaults. */
  predicate WrittenBy(env: Crypto, b: Books, e: Event, id: string, name: string) {
    Writes(e.call, id, name) && (Imports(e, id) || Proves(env, b, e.call))
  }

  /** Every import draws an id no trace of which is on disk. */
  ghost predicate FreshImports(events: seq<Event>, states: seq<Books>)
    requires |states| == |events| + 1
  {
    forall i :: 0 <= i < |events| && events[i].call.ImportMnemonic? ==> FreshId(states[i], events[i].call.id)
  }

  lemma OneCallNames(env: Crypto, b: Books, e: Event, id: string)
    requires NameOf(Next(env, b, e), id).Some? && NameOf(Next(env, b, e), id) != NameOf(b, id)
    requires id != "" && !HoldsNothing(Next(env, b, e), id)
    ensures WrittenBy(env, b, e, id, NameOf(Next(env, b, e), id).value)
  {
    var ps := Made(env, b, e);
    NamesOfRun(b, ps, id);
    var i :| 0 <= i < |ps| && Names(ps[i], id) && NameOf(Next(env, b, e), id) == Some(ps[i].name);
    assert ps[i] == PlanAt(env, b, e).changes[i];
    WhoNames(env, b, e, ps[i]);
    if !Imports(e, id) {
      RenamesAreProved(env, b, e, ps[i]);
      if HoldsNothing(b, id) {
        EmptyStep(env, b, e, id);
      }
    }
  }

  /** A name that was there before, over a wallet that holds something: so did it before. */
  lemma HeldBefore(env: Crypto, b: Books, e: Event, id: string)
    requires id != "" && !HoldsNothing(Next(env, b, e), id) && NameOf(b, id).Some?
    requires Imports(e, id) ==> FreshId(b, id)
    ensures !HoldsNothing(b, id)
  {
    if HoldsNothing(b, id) && !Imports(e, id) {
      EmptyStep(env, b, e, id);
    }
  }

  lemma NamesAt(env: Crypto, events: seq<Event>, states: seq<Books>, i: nat, id: string)
    requires Ran(env, events, states) && i < |events| && id != "" && FreshImports(events, states)
    requires NameOf(states[i + 1], id).Some? && !HoldsNothing(states[i + 1], id)
    ensures NameOf(states[i + 1], id) != NameOf(states[i], id) ==>
      WrittenBy(env, states[i], events[i], id, NameOf(states[i + 1], id).value)
    ensures NameOf(states[i + 1], id) == NameOf(states[i], id) ==> !HoldsNothing(states[i], id)
  {
    assert states[i + 1] == Next(env, states[i], events[i]);
    if NameOf(states[i + 1], id) != NameOf(states[i], id) {
      OneCallNames(env, states[i], events[i], id);
    } else {
      HeldBefore(env, states[i], events[i], id);
    }
  }

  /**
   A name is never free over something held. In any run from a keystore whose names all stand
   over nothing, a name over a wallet that holds a key or an account was written by that
   wallet's import, or by a call that opened one of its vaults.
   */
  lemma {:induction false} NamesOverHoldingsAreProved(env: Crypto, events: seq<Event>, states: seq<Books>, j: nat, id: string)
    returns (k: nat)
    requires Ran(env, events, states) && j <= |events| && id != "" && FreshImports(events, states)
    requires id in states[0].names ==> HoldsNothing(states[0], id)
    requires NameOf(states[j], id).Some? && !HoldsNothing(states[j], id)
    ensures k < j && WrittenBy(env, states[k], events[k], id, NameOf(states[j], id).value)
  {
    assert j > 0;
    NamesAt(env, events, states, j - 1, id);
    if NameOf(states[j], id) != NameOf(states[j - 1], id) {
      k := j - 1;
    } else {
      k := NamesOverHoldingsAreProved(env, events, states, j - 1, id);
    }
  }

  // ---- indices -------------------------------------------------------------------------

  /** The record remembers that `n` is used up. */
  predicate Past(b: Books, id: string, n: nat) {
    id in b.groups && b.groups[id].nextIndex > n
  }

  predicate Resets(p: Prim, id: string) {
    (p.PutGroup? || p.DropGroup?) && p.id == id
  }

  predicate NoneResets(ps: seq<Prim>, id: string) {
    forall i :: 0 <= i < |ps| ==> !Resets(ps[i], id)
  }

  lemma PastStep(b: Books, p: Prim, id: string, n: nat)
    requires Past(b, id, n) && !Resets(p, id)
    ensures Past(Apply(b, p), id, n)
  {
  }

  lemma {:induction false} PastRun(b: Books, ps: seq<Prim>, id: string, n: nat)
    requires Past(b, id, n) && NoneResets(ps, id)
    ensures Past(Replay(b, ps), id, n)
    decreases |ps|
  {
    if ps != [] {
      PastStep(b, ps[0], id, n);
      PastRun(Apply(b, ps[0]), ps[1..], id, n);
    }
  }

  lemma {:induction false} WalkResetsNothing(env: Crypto, held: set<string>, id: string, key: nat, account: nat, change: nat,
                                             password: string, start: Index, offset: nat, other: string)
    ensures NoneResets(Walk(env, held, id, key, account, change, password, start, offset).changes, other)
    decreases MAX_INDEX_SCAN - offset
  {
    if offset < MAX_INDEX_SCAN {
      WalkResetsNothing(env, held, id, key, account, change, password, start, offset + 1, other);
    }
  }

  lemma ImportResetsItself(env: Crypto, b: Books, e: Event, id: string)
    requires e.call.ImportMnemonic? && e.call.id != id
    ensures NoneResets(PlanAt(env, b, e).changes, id)
  {
    var ImportMnemonic(req, x, nowMs) := e.call;
    if ImportKeyOf(env, req).Ok? {
      var (path, key) := ImportKeyOf(env, req).value;
      var ps := ImportForward(env, req, x, nowMs, path, key, e.reached, e.luck);
      ImportGoesForward(env, req, x, nowMs, path, key, e.reached, e.luck);
      forall i | 0 <= i < |ps| ensures !Resets(ps[i], id) {
        assert Forward(ps[i], x);
      }
    }
  }

  lemma DeriveAtResetsNothing(env: Crypto, b: Books, e: Event, id: string)
    requires e.call.DeriveAt?
    ensures NoneResets(PlanAt(env, b, e).changes, id)
  {
  }

  lemma DeleteResetsNothing(env: Crypto, b: Books, e: Event, id: string)
    requires e.call.DeleteAccount? || e.call.ImportKey?
    ensures NoneResets(PlanAt(env, b, e).changes, id)
  {
  }

  lemma OtherCallsResetNothing(env: Crypto, b: Books, e: Event, id: string)
    requires !e.call.ImportMnemonic? && !e.call.DeriveNext? && !(e.call == RemoveGroup(id) && HoldsNothing(b, id))
    ensures NoneResets(PlanAt(env, b, e).changes, id)
  {
    match e.call {
      case DeriveAt(_, _, _, _, _, _) => DeriveAtResetsNothing(env, b, e, id);
      case DeleteAccount(_, _) => DeleteResetsNothing(env, b, e, id);
      case ImportKey(_, _, _) => DeleteResetsNothing(env, b, e, id);
      case RemoveGroup(_) =>
      case SetGroupLabel(_, _, _, _) =>
      case ForgetDerivation(_) =>
    }
  }

  lemma DeriveNextResetsNothing(env: Crypto, b: Books, e: Event, id: string)
    requires e.call.DeriveNext?
    ensures NoneResets(PlanAt(env, b, e).changes, id)
  {
    var c := e.call;
    var group := DerivableGroup(b, c.group);
    if group.Ok? && OpenGroupKey(b, group.value.0, c.groupPassword).Ok? && group.value.0 in b.groups {
      WalkResetsNothing(env, b.vaults.Keys, group.value.0, OpenGroupKey(b, group.value.0, c.groupPassword).value, group.value.1,
                        c.change, c.password, NextIndex(b, group.value.0, b.groups[group.value.0]), 0, id);
    }
  }

  /** Only its own import and its own removal touch the memory of a wallet's record. */
  lemma WhoResets(env: Crypto, b: Books, e: Event, id: string)
    requires !Imports(e, id) && !HoldsNothing(b, id)
    ensures NoneResets(PlanAt(env, b, e).changes, id)
  {
    if e.call.ImportMnemonic? {
      ImportResetsItself(env, b, e, id);
    } else if e.call.DeriveNext? {
      DeriveNextResetsNothing(env, b, e, id);
    } else {
      OtherCallsResetNothing(env, b, e, id);
    }
  }

  /** Used up for good, or nothing left to derive with. */
  predicate Spent(b: Books, id: string, n: nat) {
    Past(b, id, n) || HoldsNothing(b, id)
  }

  lemma SpentStep(env: Crypto, b: Books, e: Event, id: string, n: nat)
    requires Spent(b, id, n) && id != "" && !Imports(e, id)
    ensures Spent(Next(env, b, e), id, n)
  {
    if HoldsNothing(b, id) {
      EmptyStep(env, b, e, id);
    } else {
      WhoResets(env, b, e, id);
      PastRun(b, Made(env, b, e), id, n);
    }
  }

  lemma SpentAt(env: Crypto, events: seq<Event>, states: seq<Books>, i: nat, id: string, n: nat)
    requires Ran(env, events, states) && i < |events| && id != "" && !Imports(events[i], id)
    requires Spent(states[i], id, n)
    ensures Spent(states[i + 1], id, n)
  {
    SpentStep(env, states[i], events[i], id, n);
  }

  lemma {:induction false} SpentRun(env: Crypto, events: seq<Event>, states: seq<Books>, i: nat, j: nat, id: string, n: nat)
    requires Ran(env, events, states) && i <= j <= |events| && id != "" && Spent(states[i], id, n)
    requires forall m :: i <= m < j ==> !Imports(events[m], id)
    ensures Spent(states[j], id, n)
  {
    if i < j {
      SpentRun(env, events, states, i, j - 1, id, n);
      SpentAt(env, events, states, j - 1, id, n);
    }
  }

  /** The call handed out an index of this wallet. */
  predicate Issues(env: Crypto, b: Books, e: Event, id: string, n: nat) {
    && Succeeds(env, b, e)
    && PlanAt(env, b, e).answer.value.Derived?
    && PlanAt(env, b, e).answer.value.group == id && PlanAt(env, b, e).answer.value.index == n
  }

  /** A list that ends by remembering `n`, with the record there all along. */
  predicate EndsBumping(ps: seq<Prim>, id: string, n: nat) {
    n < MAX_INDEX && |ps| > 0 && ps[|ps| - 1] == Bump(id, n)
  }

  lemma {:induction false} BumpedLast(b: Books, ps: seq<Prim>, id: string, n: nat)
    requires EndsBumping(ps, id, n) && id in b.groups && forall i :: 0 <= i < |ps| ==> ps[i] != DropGroup(id)
    ensures Past(Replay(b, ps), id, n)
    decreases |ps|
  {
    if |ps| == 1 {
      assert ps[1..] == [];
    } else {
      StillRecorded(b, ps[0], id);
      BumpedLast(Apply(b, ps[0]), ps[1..], id, n);
    }
  }

  lemma StillRecorded(b: Books, p: Prim, id: string)
    requires id in b.groups && p != DropGroup(id)
    ensures id in Apply(b, p).groups
  {
  }

  lemma {:induction false} WalkEndsBumping(env: Crypto, held: set<string>, id: string, key: nat, account: nat, change: nat,
                                           password: string, start: Index, offset: nat)
    ensures
      var plan := Walk(env, held, id, key, account, change, password, start, offset);
      plan.answer.Ok? ==>
        && plan.answer.value.Derived? && plan.answer.value.group == id && start <= plan.answer.value.index
        && EndsBumping(plan.changes, id, plan.answer.value.index)
    decreases MAX_INDEX_SCAN - offset
  {
    if offset < MAX_INDEX_SCAN {
      WalkEndsBumping(env, held, id, key, account, change, password, start, offset + 1);
    }
  }

  lemma ImportEndsBumping(env: Crypto, b: Books, e: Event)
    requires e.call.ImportMnemonic? && PlanAt(env, b, e).answer.Ok?
    ensures PlanAt(env, b, e).answer.value.Derived? && PlanAt(env, b, e).answer.value.group == e.call.id
    ensures
      var ps := PlanAt(env, b, e).changes;
      && |ps| > 1 && ps[0].PutGroup? && ps[0].id == e.call.id
      && EndsBumping(ps[1..], e.call.id, PlanAt(env, b, e).answer.value.index)
      && forall i :: 0 <= i < |ps| ==> ps[i] != DropGroup(e.call.id)
  {
    var ImportMnemonic(req, id, nowMs) := e.call;
    var (path, key) := ImportKeyOf(env, req).value;
    var ps := ImportForward(env, req, id, nowMs, path, key, Landed, e.luck);
    ImportGoesForward(env, req, id, nowMs, path, key, Landed, e.luck);
    assert PlanAt(env, b, e).changes == ps;
    forall i | 0 <= i < |ps| ensures ps[i] != DropGroup(id) {
      assert Forward(ps[i], id);
    }
  }

  lemma ImportedIsSpent(env: Crypto, b: Books, e: Event, id: string, n: nat)
    requires e.call.ImportMnemonic? && Issues(env, b, e, id, n)
    ensures Past(Next(env, b, e), id, n)
  {
    var ps := PlanAt(env, b, e).changes;
    assert Made(env, b, e) == ps;
    ImportEndsBumping(env, b, e);
    BumpedLast(Apply(b, ps[0]), ps[1..], id, n);
  }

  lemma WalkedIsSpent(env: Crypto, b: Books, e: Event, id: string, n: nat)
    requires e.call.DeriveNext? && Issues(env, b, e, id, n)
    ensures Past(Next(env, b, e), id, n)
  {
    var ps := PlanAt(env, b, e).changes;
    assert Made(env, b, e) == ps;
    var c := e.call;
    var group := DerivableGroup(b, c.group);
    var start := NextIndex(b, group.value.0, b.groups[group.value.0]);
    var key := OpenGroupKey(b, group.value.0, c.groupPassword).value;
    WalkEndsBumping(env, b.vaults.Keys, group.value.0, key, group.value.1, c.change, c.password, start, 0);
    DeriveNextResetsNothing(env, b, e, id);
    assert forall i :: 0 <= i < |ps| && ps[i] == DropGroup(id) ==> Resets(ps[i], id);
    BumpedLast(b, ps, id, n);
  }

  lemma DerivedIsSpent(env: Crypto, b: Books, e: Event, id: string, n: nat)
    requires e.call.DeriveAt? && Issues(env, b, e, id, n)
    ensures Past(Next(env, b, e), id, n)
  {
    var ps := PlanAt(env, b, e).changes;
    assert Made(env, b, e) == ps;
    BumpedLast(b, ps, id, n);
  }

  /** A handed-out index is remembered before the call returns. */
  lemma IssuedIsSpent(env: Crypto, b: Books, e: Event, id: string, n: nat)
    requires Issues(env, b, e, id, n)
    ensures Past(Next(env, b, e), id, n)
  {
    match e.call {
      case ImportMnemonic(_, _, _) => ImportedIsSpent(env, b, e, id, n);
      case DeriveNext(_, _, _, _) => WalkedIsSpent(env, b, e, id, n);
      case DeriveAt(_, _, _, _, _, _) => DerivedIsSpent(env, b, e, id, n);
      case ImportKey(_, _, _) =>
      case DeleteAccount(_, _) =>
      case ForgetDerivation(_) =>
      case RemoveGroup(_) =>
      case SetGroupLabel(_, _, _, _) =>
    }
  }

  /** A derivation starts at or above everything its record remembers, and needs a key. */
  lemma DerivedIsAbove(env: Crypto, b: Books, e: Event, id: string, n: nat, issued: nat)
    requires e.call.DeriveNext? && Issues(env, b, e, id, n) && Spent(b, id, issued)
    ensures issued < n
  {
    var c := e.call;
    var group := DerivableGroup(b, c.group);
    WalkEndsBumping(env, b.vaults.Keys, group.value.0, OpenGroupKey(b, group.value.0, c.groupPassword).value, group.value.1,
                    c.change, c.password, NextIndex(b, group.value.0, b.groups[group.value.0]), 0);
  }

  lemma SpentOnceIssued(env: Crypto, events: seq<Event>, states: seq<Books>, i: nat, id: string, issued: nat)
    requires Ran(env, events, states) && i < |events| && id != "" && Issues(env, states[i], events[i], id, issued)
    ensures Spent(states[i + 1], id, issued)
  {
    IssuedIsSpent(env, states[i], events[i], id, issued);
    assert states[i + 1] == Next(env, states[i], events[i]);
  }

  /**
   Indices only climb. Whatever else runs in between, killed or failed anywhere, each index
   `derive_next_account` returns is above every index the wallet handed out before it, by
   import or by either derivation, deleted accounts included.
   */
  lemma IndicesClimb(env: Crypto, events: seq<Event>, states: seq<Books>, i: nat, j: nat, id: string, issued: nat, n: nat)
    requires Ran(env, events, states) && i < j < |events| && id != ""
    requires forall m :: i < m < j ==> !Imports(events[m], id)
    requires Issues(env, states[i], events[i], id, issued)
    requires events[j].call.DeriveNext? && Issues(env, states[j], events[j], id, n)
    ensures issued < n
  {
    SpentOnceIssued(env, events, states, i, id, issued);
    ClimbsPast(env, events, states, i, j, id, issued, n);
  }

  lemma SpentUntil(env: Crypto, events: seq<Event>, states: seq<Books>, i: nat, j: nat, id: string, n: nat)
    requires Ran(env, events, states) && i < j <= |events| && id != "" && Spent(states[i + 1], id, n)
    requires forall m :: i < m < j ==> !Imports(events[m], id)
    ensures Spent(states[j], id, n)
  {
    SpentRun(env, events, states, i + 1, j, id, n);
  }

  lemma ClimbsPast(env: Crypto, events: seq<Event>, states: seq<Books>, i: nat, j: nat, id: string, issued: nat, n: nat)
    requires Ran(env, events, states) && i < j < |events| && id != "" && Spent(states[i + 1], id, issued)
    requires forall m :: i < m < j ==> !Imports(events[m], id)
    requires events[j].call.DeriveNext? && Issues(env, states[j], events[j], id, n)
    ensures issued < n
  {
    SpentUntil(env, events, states, i, j, id, issued);
    DerivedIsAbove(env, states[j], events[j], id, n, issued);
  }
}
