/**
 Wallet bookkeeping: four sidecars, the derivation keys and the vaults, and the calls that
 change several of them without a transaction.

 Models the wallet half of rust-lib/src/keystore.rs. `Books` is what is on disk; a `Prim` is
 one change that a kill cannot split; a call is the list of changes it makes, and a kill
 leaves a prefix of that list.
 */
module Wallet {
  import opened Base
  import opened Text
  import opened Hd
  import opened Layout
  import TxForm

  type Index = i: nat | i < U32_LIMIT

  const MAX_INDEX: Index := U32_LIMIT - 1
  const MAX_INDEX_SCAN: Index := 100

  function Saturating(i: nat): Index {
    if i < U32_LIMIT then i else MAX_INDEX
  }

  function MaxOf(a: Index, b: Index): Index {
    if a < b then b else a
  }

  datatype Storage = Plain | Extkey

  datatype Group = Group(
    storage: Storage,
    pathPrefix: string,
    nextIndex: Index,
    retired: set<Index>,
    usedPassphrase: bool,
    oldLabel: string,
    createdMs: nat)

  datatype Provenance = Provenance(origin: string, group: string, path: string, index: Option<Index>)

  /** A scrypt file: a secret under a password, or something that opens for nobody. */
  datatype Vault = Sealed(secret: nat, password: string) | Unopenable

  /** What `groups/.stage-<id>` holds. */
  datatype KeyStage = NoCopy | TornCopy | FullCopy(key: Vault)

  datatype Books = Books(
    groups: map<string, Group>,
    names: map<string, string>,
    provenance: map<string, Provenance>,
    keys: map<string, Vault>,
    staged: map<string, KeyStage>,
    vaults: map<string, Vault>)

  /** BIP-32 and BIP-39: the account key of a phrase, a child key, and a key's vault name. */
  datatype Crypto = Crypto(
    accountKey: (string, string, nat) -> Result<nat>,
    child: (nat, nat, nat) -> nat,
    address: nat -> string)

  // ---- changes on disk -----------------------------------------------------------------

  datatype Prim =
    | PutGroup(id: string, group: Group)
    | DropGroup(id: string)
    | SetPlain(id: string)
    | Bump(id: string, used: Index)
    | RetireIndex(id: string, used: Index)
    | ClearOldLabel(id: string)
    | PutName(id: string, name: string)
    | DropName(id: string)
    | PutProvenance(addr: string, p: Provenance)
    | FillProvenance(addr: string, p: Provenance)
    | DropProvenance(addr: string)
    | OpenStage(id: string)
    | TearCopy(id: string)
    | FillCopy(id: string, key: Vault)
    | Publish(id: string)
    | DropStage(id: string)
    | DropKey(id: string)
    | PutVault(addr: string, vault: Vault)
    | DropVault(addr: string)
    | Skip

  /** A change to a record that is there. `get_mut` finds nothing otherwise. */
  function Amend(b: Books, id: string, f: Group -> Group): Books {
    if id in b.groups then b.(groups := b.groups[id := f(b.groups[id])]) else b
  }

  function Bumped(g: Group, used: Index): Group {
    g.(nextIndex := MaxOf(g.nextIndex, Saturating(used + 1)))
  }

  function Apply(b: Books, p: Prim): Books {
    match p
    case PutGroup(id, group) => b.(groups := b.groups[id := group])
    case DropGroup(id) => b.(groups := b.groups - {id})
    case SetPlain(id) => Amend(b, id, (g: Group) => g.(storage := Plain))
    case Bump(id, used) => Amend(b, id, (g: Group) => Bumped(g, used))
    case RetireIndex(id, used) => Amend(b, id, (g: Group) => Bumped(g.(retired := g.retired + {used}), used))
    case ClearOldLabel(id) => Amend(b, id, (g: Group) => g.(oldLabel := ""))
    case PutName(id, name) => b.(names := b.names[id := name])
    case DropName(id) => b.(names := b.names - {id})
    case PutProvenance(a, p) => b.(provenance := b.provenance[a := p])
    case FillProvenance(a, p) => if a in b.provenance then b else b.(provenance := b.provenance[a := p])
    case DropProvenance(a) => b.(provenance := b.provenance - {a})
    case OpenStage(id) => b.(staged := b.staged[id := NoCopy])
    case TearCopy(id) => b.(staged := b.staged[id := TornCopy])
    case FillCopy(id, key) => b.(staged := b.staged[id := FullCopy(key)])
    case Publish(id) =>
      if id in b.staged && b.staged[id].FullCopy?
      then b.(keys := b.keys[id := b.staged[id].key], staged := b.staged[id := NoCopy])
      else b
    case DropStage(id) => b.(staged := b.staged - {id})
    case DropKey(id) => b.(keys := b.keys - {id})
    case PutVault(a, vault) => b.(vaults := b.vaults[a := vault])
    case DropVault(a) => b.(vaults := b.vaults - {a})
    case Skip => b
  }

  function Replay(b: Books, ps: seq<Prim>): Books
    decreases |ps|
  {
    if ps == [] then b else Replay(Apply(b, ps[0]), ps[1..])
  }

  /** A change whose failure the call does not look at. */
  function Try(p: Prim, ok: bool): Prim {
    if ok then p else Skip
  }

  // ---- holdings ------------------------------------------------------------------------

  predicate StagedKey(b: Books, id: string) {
    id in b.staged && b.staged[id] != NoCopy
  }

  /** A derivation key at either path. A torn copy is not told apart from a whole one. */
  predicate Keyed(b: Books, id: string) {
    id in b.keys || StagedKey(b, id)
  }

  function AccountsOf(b: Books, id: string): set<string> {
    set a | a in b.provenance && b.provenance[a].group == id
  }

  predicate HoldsNothing(b: Books, id: string) {
    !Keyed(b, id) && AccountsOf(b, id) == {}
  }

  // ---- opening things ------------------------------------------------------------------

  function Unseal(v: Vault, password: string): Result<nat> {
    if v.Sealed? && v.password == password then Ok(v.secret) else Err(VaultError)
  }

  function ParseAddress(s: string): Result<string> {
    var t := Trim(s);
    var marked := TxForm.StripHexMark(t);
    var digits := AsciiLower(if marked.Some? then marked.value else t);
    if IsHex(digits, 40) then Ok(digits) else Err(InvalidAddress)
  }

  /** `signer_for`: the vault's key, if it is really this account's. */
  function SignerOf(env: Crypto, b: Books, address: string, password: string): Result<nat> {
    var a :- ParseAddress(address);
    if a !in b.vaults then Err(NotFound)
    else
      var secret :- Unseal(b.vaults[a], password);
      if env.address(secret) == a then Ok(secret) else Err(Refused)
  }

  function OpenGroupKey(b: Books, id: string, password: string): Result<nat> {
    if id !in b.keys then Err(NotFound) else Unseal(b.keys[id], password)
  }

  /** `prove_group_custody`: the live key, or the copy an interrupted import left. */
  function ProveGroupCustody(b: Books, id: string, password: string): Result<nat> {
    if id in b.keys then Unseal(b.keys[id], password)
    else if id in b.staged && b.staged[id].FullCopy? then Unseal(b.staged[id].key, password)
    else Err(VaultError)
  }

  // ---- indices -------------------------------------------------------------------------

  function UsedIndices(b: Books, id: string): set<Index> {
    set a | a in b.provenance && b.provenance[a].group == id && b.provenance[a].index.Some? :: b.provenance[a].index.value
  }

  predicate NoneAbove(s: set<Index>, m: Index) {
    forall k :: k in s ==> k <= m
  }

  lemma {:induction false} HighestExists(s: set<Index>) returns (m: Index)
    requires s != {}
    ensures m in s && NoneAbove(s, m)
  {
    var x :| x in s;
    var rest := s - {x};
    assert s == rest + {x};
    if rest == {} {
      m := x;
    } else {
      var top := HighestExists(rest);
      m := MaxOf(top, x);
    }
  }

  lemma SomeIsHighest(s: set<Index>)
    requires s != {}
    ensures exists m :: m in s && NoneAbove(s, m)
  {
    var m := HighestExists(s);
  }

  function Highest(s: set<Index>): Index
    requires s != {}
  {
    SomeIsHighest(s);
    var m :| m in s && NoneAbove(s, m);
    m
  }

  /** `next_index`: what the record remembers, or one past the highest recorded account. */
  function NextIndex(b: Books, id: string, g: Group): Index {
    var used := UsedIndices(b, id);
    MaxOf(g.nextIndex, if used == {} then 0 else Saturating(Highest(used) + 1))
  }

  /** It is the least number that is past everything: what the record remembers, and each account's index. */
  lemma NextIndexIsLeast(b: Books, id: string, g: Group, n: nat)
    ensures NextIndex(b, id, g) <= n <==>
      && g.nextIndex <= n
      && forall a :: a in b.provenance && b.provenance[a].group == id && b.provenance[a].index.Some? ==>
           Saturating(b.provenance[a].index.value + 1) <= n
  {
    var used := UsedIndices(b, id);
    RecordedIsUsed(b, id);
    if used != {} {
      var m: nat := Highest(used);
      var top :| top in b.provenance && b.provenance[top].group == id && b.provenance[top].index == Some(m);
      assert NoneAbove(used, m);
    }
  }

  lemma RecordedIsUsed(b: Books, id: string)
    ensures forall a :: a in b.provenance && b.provenance[a].group == id && b.provenance[a].index.Some? ==>
      b.provenance[a].index.value in UsedIndices(b, id)
  {
  }

  // ---- calls ---------------------------------------------------------------------------

  datatype ImportRequest = ImportRequest(
    phrase: string,
    passphrase: string,
    index: nat,
    password: string,
    storage: Storage,
    account: nat,
    change: nat,
    groupPassword: string,
    groupLabel: string)

  datatype Call =
    | ImportMnemonic(req: ImportRequest, id: string, nowMs: nat)
    | ImportKey(origin: string, secret: nat, password: string)
    | DeriveNext(group: Option<string>, groupPassword: string, password: string, change: nat)
    | DeriveAt(id: string, groupPassword: string, password: string, bip44Account: Option<nat>, change: nat, index: nat)
    | DeleteAccount(address: string, password: string)
    | ForgetDerivation(id: string)
    | RemoveGroup(id: string)
    | SetGroupLabel(id: string, text: string, address: string, password: string)

  datatype Reply =
    | Derived(address: string, path: string, group: string, index: Index)
    | Imported(address: string)
    | Deleted(found: bool)
    | Forgotten(recordUpdated: bool, wasStranded: bool, stagedRemoved: bool)
    | Removed(recordRemoved: bool, nameRemoved: bool)
    | Named

  /** Which of the removals a call does not look at go through. */
  datatype Luck = Luck(guard: bool, key: bool, stage: bool, name: bool, record: bool)

  /** How far an import gets: the first change that fails, within its part. */
  datatype Reached = AtRecord | AtName | AtKey(done: nat) | AtAccount(done: nat) | Landed

  /** The changes of a call, and what it answers once they are all made. */
  datatype Plan = Plan(changes: seq<Prim>, answer: Result<Reply>)

  function NameChange(id: string, text: string): Prim {
    if Trim(text) == "" then DropName(id) else PutName(id, Trim(text))
  }

  function DerivedFrom(id: string, path: Bip44Path): Provenance
    requires path.Valid()
  {
    Provenance("derived", id, Print(path), Some(path.index))
  }

  /** `persist_derived`. */
  function PersistDerived(env: Crypto, id: string, key: nat, path: Bip44Path, password: string): seq<Prim>
    requires path.Valid()
  {
    var secret := env.child(key, path.change, path.index);
    var a := env.address(secret);
    [PutVault(a, Sealed(secret, password)), PutProvenance(a, DerivedFrom(id, path)), Bump(id, path.index)]
  }

  function DerivedReply(env: Crypto, id: string, key: nat, path: Bip44Path): Reply
    requires path.Valid()
  {
    Derived(env.address(env.child(key, path.change, path.index)), Print(path), id, path.index)
  }

  // ---- import --------------------------------------------------------------------------

  function ImportKeyOf(env: Crypto, req: ImportRequest): Result<(Bip44Path, nat)> {
    var path :- NewPath(req.account, req.change, req.index);
    if req.storage == Extkey && req.groupPassword == "" then Err(InvalidParams)
    else
      var key :- env.accountKey(req.phrase, req.passphrase, path.account);
      Ok((path, key))
  }

  function NewRecord(req: ImportRequest, nowMs: nat): Group {
    Group(req.storage, AccountPrefix(req.account), 0, {}, req.passphrase != "", "", nowMs)
  }

  function KeySteps(id: string, key: Vault): seq<Prim> {
    [OpenStage(id), TearCopy(id), FillCopy(id, key), Publish(id)]
  }

  /** `write_group_vault` stopped after `done` of its steps; the stage guard runs on every exit. */
  function WriteGroupVault(id: string, key: Vault, done: nat, guard: bool): seq<Prim> {
    if done == 0 then [] else KeySteps(id, key)[..if done > 4 then 4 else done] + [Try(DropStage(id), guard)]
  }

  /** Both paths the key can occupy, then the name, then the record. */
  function Rollback(id: string, luck: Luck): seq<Prim> {
    [Try(DropKey(id), luck.key), Try(DropStage(id), luck.stage), Try(DropName(id), luck.name), Try(DropGroup(id), luck.record)]
  }

  /** What an import does to the key half: nothing unless it keeps one. */
  function KeyPart(req: ImportRequest, id: string, key: nat, done: nat, guard: bool): seq<Prim> {
    if req.storage == Extkey then WriteGroupVault(id, Sealed(key, req.groupPassword), done, guard) else []
  }

  /** What an import changes once its record is down. */
  function Landing(env: Crypto, req: ImportRequest, id: string, path: Bip44Path, key: nat, reached: Reached, guard: bool): seq<Prim>
    requires path.Valid()
  {
    var account := PersistDerived(env, id, key, path, req.password);
    match reached
    case AtRecord => []
    case AtName => []
    case AtKey(done) => [NameChange(id, req.groupLabel)] + KeyPart(req, id, key, if done < 4 then done else 3, guard)
    case AtAccount(done) =>
      [NameChange(id, req.groupLabel)] + (KeyPart(req, id, key, 4, guard) + account[..if done < 3 then done else 2])
    case Landed => [NameChange(id, req.groupLabel)] + (KeyPart(req, id, key, 4, guard) + account)
  }

  /** Everything an import changes before it lands or turns back. */
  function ImportForward(env: Crypto, req: ImportRequest, id: string, nowMs: nat, path: Bip44Path, key: nat,
                         reached: Reached, luck: Luck): seq<Prim>
    requires path.Valid()
  {
    if reached == AtRecord then []
    else [PutGroup(id, NewRecord(req, nowMs))] + Landing(env, req, id, path, key, reached, luck.guard)
  }

  predicate TurnsBack(reached: Reached) {
    reached != AtRecord && reached != Landed
  }

  function ImportChanges(env: Crypto, req: ImportRequest, id: string, nowMs: nat, path: Bip44Path, key: nat,
                         reached: Reached, luck: Luck): seq<Prim>
    requires path.Valid()
  {
    ImportForward(env, req, id, nowMs, path, key, reached, luck) + if TurnsBack(reached) then Rollback(id, luck) else []
  }

  function ImportPlan(env: Crypto, req: ImportRequest, id: string, nowMs: nat, reached: Reached, luck: Luck): Plan {
    match ImportKeyOf(env, req)
    case Err(e) => Plan([], Err(e))
    case Ok((path, key)) =>
      Plan(ImportChanges(env, req, id, nowMs, path, key, reached, luck),
           if reached == Landed then Ok(DerivedReply(env, id, key, path)) else Err(IoError))
  }

  // ---- the other calls -----------------------------------------------------------------

  function Derivables(b: Books): set<string> {
    set id | id in b.groups && b.groups[id].storage == Extkey
  }

  lemma OnlyDerivable(b: Books)
    ensures |Derivables(b)| == 1 ==> exists id :: id in Derivables(b) && forall x :: x in Derivables(b) ==> x == id
  {
    if |Derivables(b)| == 1 {
      var id :| id in Derivables(b);
      assert |Derivables(b) - {id}| == 0;
      assert forall x :: x in Derivables(b) ==> x in Derivables(b) - {id} || x == id;
    }
  }

  function ResolveGroup(b: Books, id: Option<string>): Result<string> {
    match id
    case Some(g) => if !IsGroupId(g) then Err(InvalidParams) else if g !in b.groups then Err(NotFound) else Ok(g)
    case None =>
      if |Derivables(b)| != 1 then Err(Error.Refused)
      else
        OnlyDerivable(b);
        var g :| g in Derivables(b) && forall x :: x in Derivables(b) ==> x == g;
        Ok(g)
  }

  /** The wallet to derive from and the BIP-44 account its stored key is pinned to. */
  function DerivableGroup(b: Books, id: Option<string>): Result<(string, nat)> {
    var g :- ResolveGroup(b, id);
    if g !in b.groups || b.groups[g].storage != Extkey then Err(Error.Refused)
    else
      var account :- ParseAccountPrefix(b.groups[g].pathPrefix);
      Ok((g, account))
  }

  /** The scan of `derive_next_account`, from `offset` on. `held` was taken once, at the start. */
  function Walk(env: Crypto, held: set<string>, id: string, key: nat, account: nat, change: nat, password: string,
                start: Index, offset: nat): Plan
    decreases MAX_INDEX_SCAN - offset
  {
    if offset >= MAX_INDEX_SCAN then Plan([], Err(Error.Refused))
    else
      var index := Saturating(start + offset);
      match NewPath(account, change, index)
      case Err(e) => Plan([], Err(e))
      case Ok(path) =>
        var a := env.address(env.child(key, change, index));
        if a !in held then
          Plan(PersistDerived(env, id, key, path, password), Ok(DerivedReply(env, id, key, path)))
        else
          var rest := Walk(env, held, id, key, account, change, password, start, offset + 1);
          Plan([FillProvenance(a, DerivedFrom(id, path)), Bump(id, index)] + rest.changes, rest.answer)
  }

  function DeriveNextPlan(env: Crypto, b: Books, group: Option<string>, groupPassword: string, password: string, change: nat): Plan {
    match DerivableGroup(b, group)
    case Err(e) => Plan([], Err(e))
    case Ok((id, account)) =>
      match OpenGroupKey(b, id, groupPassword)
      case Err(e) => Plan([], Err(e))
      case Ok(key) =>
        if id !in b.groups then Plan([], Err(NotFound))
        else Walk(env, b.vaults.Keys, id, key, account, change, password, NextIndex(b, id, b.groups[id]), 0)
  }

  function DeriveAtPlan(env: Crypto, b: Books, id: string, groupPassword: string, password: string,
                        asked: Option<nat>, change: nat, index: nat): Plan {
    match DerivableGroup(b, Some(id))
    case Err(e) => Plan([], Err(e))
    case Ok((_, account)) =>
      if asked.Some? && asked.value != account then Plan([], Err(Error.Refused))
      else
        match NewPath(account, change, index)
        case Err(e) => Plan([], Err(e))
        case Ok(path) =>
          match OpenGroupKey(b, id, groupPassword)
          case Err(e) => Plan([], Err(e))
          case Ok(key) =>
            if env.address(env.child(key, change, index)) in b.vaults then Plan([], Err(Error.Refused))
            else Plan(PersistDerived(env, id, key, path, password), Ok(DerivedReply(env, id, key, path)))
  }

  /** `retire`: the account's provenance goes, and its index is never handed out again. */
  function RetireChanges(b: Books, a: string): seq<Prim> {
    if a in b.provenance && b.provenance[a].index.Some? && b.provenance[a].group != "" then
      [DropProvenance(a), RetireIndex(b.provenance[a].group, b.provenance[a].index.value)]
    else [DropProvenance(a)]
  }

  function DeletePlan(env: Crypto, b: Books, address: string, password: string): Plan {
    match ParseAddress(address)
    case Err(e) => Plan([], Err(e))
    case Ok(a) =>
      if a !in b.vaults then Plan([], Ok(Deleted(false)))
      else
        match SignerOf(env, b, address, password)
        case Err(e) => Plan([], Err(e))
        case Ok(_) => Plan([DropVault(a)] + RetireChanges(b, a), Ok(Deleted(true)))
  }

  function ForgetPlan(b: Books, id: string, luck: Luck): Plan {
    if !IsGroupId(id) then Plan([], Err(InvalidParams))
    else if id !in b.keys && id !in b.staged then Plan([], Err(NotFound))
    else
      Plan((if id in b.keys then [DropKey(id)] else []) + (if id in b.staged then [DropStage(id)] else [])
             + [Try(SetPlain(id), luck.record)],
           Ok(Forgotten(luck.record && id in b.groups, luck.record && id !in b.groups, id in b.staged)))
  }

  function RemoveGroupPlan(b: Books, id: string): Plan {
    if !IsGroupId(id) then Plan([], Err(InvalidParams))
    else if !HoldsNothing(b, id) then Plan([], Err(Error.Refused))
    else if id !in b.groups && id !in b.names then Plan([], Err(NotFound))
    else
      Plan((if id in b.groups then [DropGroup(id)] else []) + (if id in b.names then [DropName(id)] else []),
           Ok(Removed(id in b.groups, id in b.names)))
  }

  /** A text that says nothing clears the name, and clearing is asked for nothing. */
  function LabelCustody(env: Crypto, b: Books, id: string, text: string, address: string, password: string): Result<()> {
    if Trim(text) == "" then Ok(())
    else if AccountsOf(b, id) != {} then
      if address == "" then Err(Error.Refused)
      else
        match ParseAddress(address)
        case Err(_) => Err(Error.Refused)
        case Ok(a) =>
          if a !in AccountsOf(b, id) then Err(Error.Refused)
          else
            var _ :- SignerOf(env, b, address, password);
            Ok(())
    else if Keyed(b, id) then
      if password == "" then Err(Error.Refused)
      else
        var _ :- ProveGroupCustody(b, id, password);
        Ok(())
    else Ok(())
  }

  function SetLabelPlan(env: Crypto, b: Books, id: string, text: string, address: string, password: string): Plan {
    if !IsGroupId(id) then Plan([], Err(InvalidParams))
    else if id !in b.groups && HoldsNothing(b, id) && id !in b.names then Plan([], Err(InvalidParams))
    else
      match LabelCustody(env, b, id, text, address, password)
      case Err(e) => Plan([], Err(e))
      case Ok(_) =>
        Plan((if id in b.groups && Trim(b.groups[id].oldLabel) != "" then [ClearOldLabel(id)] else []) + [NameChange(id, text)],
             Ok(Named))
  }

  /** A raw key, a foreign vault, or a random key: a vault no wallet accounts for. */
  function ImportKeyPlan(env: Crypto, origin: string, secret: nat, password: string): Plan {
    var a := env.address(secret);
    Plan([PutVault(a, Sealed(secret, password)), PutProvenance(a, Provenance(origin, "", "", None))], Ok(Imported(a)))
  }

  /** All the changes of a call. `reached` matters to an import only. */
  function PlanOf(env: Crypto, b: Books, c: Call, reached: Reached, luck: Luck): Plan {
    match c
    case ImportMnemonic(req, id, nowMs) => ImportPlan(env, req, id, nowMs, reached, luck)
    case ImportKey(origin, secret, password) => ImportKeyPlan(env, origin, secret, password)
    case DeriveNext(group, groupPassword, password, change) => DeriveNextPlan(env, b, group, groupPassword, password, change)
    case DeriveAt(id, groupPassword, password, asked, change, index) =>
      DeriveAtPlan(env, b, id, groupPassword, password, asked, change, index)
    case DeleteAccount(address, password) => DeletePlan(env, b, address, password)
    case ForgetDerivation(id) => ForgetPlan(b, id, luck)
    case RemoveGroup(id) => RemoveGroupPlan(b, id)
    case SetGroupLabel(id, text, address, password) => SetLabelPlan(env, b, id, text, address, password)
  }

  /** An id no trace of which is on disk: what 128 random bits give an import. */
  predicate FreshId(b: Books, id: string) {
    && IsGroupId(id) && id !in b.groups && id !in b.names && id !in b.keys && id !in b.staged
    && AccountsOf(b, id) == {}
  }
}
