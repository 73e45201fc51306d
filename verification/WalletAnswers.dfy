/**
 What each wallet call asks for, and what it has done once it answers.

 For `import_private_key`, `create_unrelated_account`, `derive_next_account`, `derive_account_at`,
 `delete_account`, `forget_derivation`, `remove_group`, `set_group_label` and the vault and key
 they open, in rust-lib/src/keystore.rs: the condition on the books under which a call answers
 as it does, and the books it leaves when all its changes are made.
 */
module WalletAnswers {
  import opened Base
  import opened Text
  import opened Hd
  import Layout
  import TxForm
  import opened Readings
  import opened Wallet
  import opened WalletSteps
  import opened WalletEffects

  // ---- addresses -----------------------------------------------------------------------

  /** The forty digits a vault is named by, of an address spelled in either case, bare or marked. */
  lemma AddressExactly(s: string, digits: string)
    ensures ParseAddress(s) == Ok(digits) <==>
      var t := Trim(s);
      Layout.IsAddr(digits) && AsciiLower(if Hexed(t) then t[2..] else t) == digits
    ensures ParseAddress(s).Err? ==> ParseAddress(s) == Err(InvalidAddress)
  {
    MarkExactly(Trim(s));
  }

  predicate LowersTo(digits: string) {
    |digits| == 16 && forall c :: DigitValue(c) < 16 ==> LowerChar(c) == digits[DigitValue(c)]
  }

  lemma SmallDigitsLower()
    ensures LowersTo(SMALL_DIGITS)
  {
    forall c | DigitValue(c) < 16 ensures LowerChar(c) == SMALL_DIGITS[DigitValue(c)] {
      DigitExactly(c, DigitValue(c));
    }
  }

  predicate AllBytes(bytes: TxForm.Bytes) {
    forall k :: 0 <= k < |bytes| ==> bytes[k] < 256
  }

  lemma FirstByte(h: string)
    requires TxForm.HexDecode(h).Some? && h != ""
    ensures |h| >= 2 && DigitValue(h[0]) < 16 && DigitValue(h[1]) < 16 && TxForm.HexDecode(h[2..]).Some?
    ensures TxForm.HexDecode(h).value == [DigitValue(h[0]) * 16 + DigitValue(h[1])] + TxForm.HexDecode(h[2..]).value
  {
  }

  lemma FirstPrinted(b: nat, rest: TxForm.Bytes, digits: string)
    requires b < 256 && AllBytes(rest) && |digits| == 16
    ensures AllBytes([b] + rest) && Printed([b] + rest, digits) == [digits[b / 16], digits[b % 16]] + Printed(rest, digits)
  {
    assert ([b] + rest)[1..] == rest;
  }

  lemma {:induction false} LowerHexIsPrinted(h: string, digits: string)
    requires TxForm.HexDecode(h).Some? && LowersTo(digits)
    ensures AllBytes(TxForm.HexDecode(h).value) && AsciiLower(h) == Printed(TxForm.HexDecode(h).value, digits)
    decreases |h|
  {
    if h != "" {
      FirstByte(h);
      LowerHexIsPrinted(h[2..], digits);
      LowerPair(h, digits);
      Halves(DigitValue(h[0]), DigitValue(h[1]));
      FirstPrinted(DigitValue(h[0]) * 16 + DigitValue(h[1]), TxForm.HexDecode(h[2..]).value, digits);
    }
  }

  lemma LowerPair(h: string, digits: string)
    requires LowersTo(digits) && |h| >= 2 && DigitValue(h[0]) < 16 && DigitValue(h[1]) < 16
    ensures AsciiLower(h) == [digits[DigitValue(h[0])], digits[DigitValue(h[1])]] + AsciiLower(h[2..])
  {
    var low := AsciiLower(h);
    AsciiLowerSlice(h, 2, |h|);
    assert low == [low[0], low[1]] + low[2..];
  }

  /** A vault is named by the bytes of its address, as a transaction's recipient is read off the same text. */
  lemma NamedByItsBytes(s: string, bytes: TxForm.Bytes)
    requires TxForm.ReadAddress(Trim(s)) == Ok(bytes)
    ensures forall k :: 0 <= k < |bytes| ==> bytes[k] < 256
    ensures ParseAddress(s) == Ok(Printed(bytes, SMALL_DIGITS))
  {
    var h := TxForm.Unmarked(Trim(s));
    SmallDigitsLower();
    LowerHexIsPrinted(h, SMALL_DIGITS);
    DecodedAreDigits(h);
  }

  lemma {:induction false} DecodedAreDigits(h: string)
    requires TxForm.HexDecode(h).Some?
    ensures |h| == 2 * |TxForm.HexDecode(h).value| && IsHex(AsciiLower(h), |h|)
    decreases |h|
  {
    if h != "" {
      FirstByte(h);
      DecodedAreDigits(h[2..]);
      AsciiLowerSlice(h, 2, |h|);
      var low, rest := AsciiLower(h), AsciiLower(h[2..]);
      forall i | 0 <= i < |h| ensures IsLowerHex(low[i]) {
        if i >= 2 {
          assert low[i] == rest[i - 2];
        }
      }
    }
  }

  lemma Halves(a: nat, b: nat)
    requires a < 16 && b < 16
    ensures (a * 16 + b) / 16 == a && (a * 16 + b) % 16 == b
  {
  }

  // ---- what opens ----------------------------------------------------------------------

  /** The account's own vault: a key of this address, under this password. */
  predicate Owns(env: Crypto, b: Books, a: string, password: string, secret: nat) {
    a in b.vaults && b.vaults[a] == Sealed(secret, password) && env.address(secret) == a
  }

  lemma SignerOfExactly(env: Crypto, b: Books, address: string, password: string, a: string, secret: nat)
    requires ParseAddress(address) == Ok(a)
    ensures SignerOf(env, b, address, password) == Ok(secret) <==> Owns(env, b, a, password, secret)
    ensures SignerOf(env, b, address, password) == Err(NotFound) <==> a !in b.vaults
    ensures SignerOf(env, b, address, password) == Err(Error.Refused) <==>
      a in b.vaults && b.vaults[a].Sealed? && b.vaults[a].password == password && env.address(b.vaults[a].secret) != a
  {
  }

  /** The wallet's derivation key opens under this password, and is pinned to this BIP-44 account. */
  predicate OpensFor(b: Books, id: string, groupPassword: string, account: nat, key: nat) {
    && id in b.groups && b.groups[id].storage == Extkey && ParseAccountPrefix(b.groups[id].pathPrefix) == Ok(account)
    && id in b.keys && b.keys[id] == Sealed(key, groupPassword)
  }

  /** Which wallet is meant: the one named, or the only one that kept its key. */
  ghost predicate Means(b: Books, group: Option<string>, id: string) {
    match group
    case Some(g) => g == id && Layout.IsGroupId(id)
    case None => forall x :: x in b.groups && b.groups[x].storage == Extkey <==> x == id
  }

  lemma OneOfThem(b: Books, id: string)
    ensures Derivables(b) == {id} <==> forall x :: x in b.groups && b.groups[x].storage == Extkey <==> x == id
  {
    if forall x :: x in b.groups && b.groups[x].storage == Extkey <==> x == id {
      assert Derivables(b) == {id};
    }
    if Derivables(b) == {id} {
      forall x ensures x in b.groups && b.groups[x].storage == Extkey <==> x == id {
        assert x in Derivables(b) <==> x == id;
      }
    }
  }

  lemma OnlyOne(b: Books, id: string)
    requires |Derivables(b)| == 1 && id in Derivables(b)
    ensures Derivables(b) == {id}
  {
    OnlyDerivable(b);
  }

  lemma ResolvesExactly(b: Books, group: Option<string>, id: string)
    ensures ResolveGroup(b, group) == Ok(id) <==> Means(b, group, id) && id in b.groups
  {
    if group.None? {
      OneOfThem(b, id);
      if |Derivables(b)| == 1 {
        var g := ResolveGroup(b, group).value;
        OnlyOne(b, g);
        OneOfThem(b, g);
      }
    }
  }

  lemma DerivableExactly(b: Books, group: Option<string>, id: string, account: nat)
    ensures DerivableGroup(b, group) == Ok((id, account)) <==>
      && Means(b, group, id) && id in b.groups && b.groups[id].storage == Extkey
      && ParseAccountPrefix(b.groups[id].pathPrefix) == Ok(account)
  {
    ResolvesExactly(b, group, id);
    if ResolveGroup(b, group).Ok? {
      ResolvesExactly(b, group, ResolveGroup(b, group).value);
    }
  }

  // ---- a raw key -----------------------------------------------------------------------

  /** The books with one account that no wallet accounts for. */
  function WithKey(env: Crypto, b: Books, origin: string, secret: nat, password: string): Books {
    var a := env.address(secret);
    b.(vaults := b.vaults[a := Sealed(secret, password)], provenance := b.provenance[a := Provenance(origin, "", "", None)])
  }

  /**
   An imported or random key: its vault holds it under the caller's password, its record says where
   it came from and that it belongs to no wallet, and nothing else has changed.
   */
  lemma ImportedKey(env: Crypto, b: Books, origin: string, secret: nat, password: string)
    ensures
      var plan := ImportKeyPlan(env, origin, secret, password);
      plan.answer == Ok(Imported(env.address(secret))) && Replay(b, plan.changes) == WithKey(env, b, origin, secret, password)
  {
    var a := env.address(secret);
    TwoMade(b, PutVault(a, Sealed(secret, password)), PutProvenance(a, Provenance(origin, "", "", None)));
  }

  lemma TwoMade(b: Books, p: Prim, q: Prim)
    ensures Replay(b, [p, q]) == Apply(Apply(b, p), q)
  {
    assert [p, q] == [p] + ([q] + []);
    ReplayCons(b, p, [q] + []);
    ReplayCons(Apply(b, p), q, []);
  }

  /** From then on its password signs with it, and no other does. */
  lemma ImportedKeyOpens(env: Crypto, b: Books, origin: string, secret: nat, password: string, address: string, tried: string)
    requires ParseAddress(address) == Ok(env.address(secret))
    ensures
      var x := Replay(b, ImportKeyPlan(env, origin, secret, password).changes);
      SignerOf(env, x, address, tried) == if tried == password then Ok(secret) else Err(VaultError)
  {
    ImportedKey(env, b, origin, secret, password);
  }

  /** Deleting it with that password undoes its import; with any other, nothing happens. */
  lemma DeletingUndoesImporting(env: Crypto, b: Books, origin: string, secret: nat, password: string, address: string, tried: string)
    requires ParseAddress(address) == Ok(env.address(secret))
    requires env.address(secret) !in b.vaults && env.address(secret) !in b.provenance
    ensures
      var x := Replay(b, ImportKeyPlan(env, origin, secret, password).changes);
      var plan := DeletePlan(env, x, address, tried);
      if tried == password then plan.answer == Ok(Deleted(true)) && Replay(x, plan.changes) == b
      else plan.answer == Err(VaultError) && plan.changes == []
  {
    ImportedKey(env, b, origin, secret, password);
    var a, x := env.address(secret), WithKey(env, b, origin, secret, password);
    if tried == password {
      DeletedState(x, a);
      PutThenDrop(b.vaults, a, Sealed(secret, password));
      PutThenDrop(b.provenance, a, Provenance(origin, "", "", None));
    }
  }

  // ---- a deletion ----------------------------------------------------------------------

  /** The account was derived for a wallet, at an index of it. */
  predicate FromWallet(b: Books, a: string) {
    a in b.provenance && b.provenance[a].index.Some? && b.provenance[a].group != ""
  }

  /** The wallet's record, once this index is never to be handed out again. */
  function Retired(g: Group, used: Index): Group {
    g.(retired := g.retired + {used}, nextIndex := if g.nextIndex > used then g.nextIndex else if used == MAX_INDEX then used else used + 1)
  }

  /** The books without the account: its vault, its record, and its index, which is retired. */
  function Without(b: Books, a: string): Books {
    var less := b.(vaults := b.vaults - {a}, provenance := b.provenance - {a});
    if FromWallet(b, a) && b.provenance[a].group in b.groups then
      less.(groups := b.groups[b.provenance[a].group := Retired(b.groups[b.provenance[a].group], b.provenance[a].index.value)])
    else less
  }

  lemma DeletedState(b: Books, a: string)
    ensures Replay(b, [DropVault(a)] + RetireChanges(b, a)) == Without(b, a)
  {
    if FromWallet(b, a) {
      var id, index := b.provenance[a].group, b.provenance[a].index.value;
      assert [DropVault(a)] + RetireChanges(b, a) == [DropVault(a), DropProvenance(a), RetireIndex(id, index)];
      ReplayThree(b, DropVault(a), DropProvenance(a), RetireIndex(id, index));
    } else {
      assert [DropVault(a)] + RetireChanges(b, a) == [DropVault(a), DropProvenance(a)];
      TwoMade(b, DropVault(a), DropProvenance(a));
    }
  }

  /**
   A deletion: refused unless the vault opens as this account's own under the password, and then
   everything about the account is gone but its index. Where there is no vault, nothing happens.
   */
  lemma DeletionExactly(env: Crypto, b: Books, address: string, password: string)
    ensures
      var plan := DeletePlan(env, b, address, password);
      && (ParseAddress(address).Err? ==> plan == Plan([], Err(InvalidAddress)))
      && (ParseAddress(address).Ok? ==>
            var a := ParseAddress(address).value;
            && (plan.answer == Ok(Deleted(false)) <==> a !in b.vaults)
            && (plan.answer == Ok(Deleted(true)) <==> exists secret :: Owns(env, b, a, password, secret))
            && Replay(b, plan.changes) == if plan.answer == Ok(Deleted(true)) then Without(b, a) else b)
  {
    AddressExactly(address, "");
    if ParseAddress(address).Ok? {
      var a := ParseAddress(address).value;
      DeletedState(b, a);
      if a in b.vaults && b.vaults[a].Sealed? && b.vaults[a].password == password && env.address(b.vaults[a].secret) == a {
        assert Owns(env, b, a, password, b.vaults[a].secret);
      }
    }
  }

  // ---- a derivation at an index --------------------------------------------------------

  /** What a derivation at a chosen index needs: the wallet's key, its own account, a path, and a free address. */
  predicate CanDeriveAt(env: Crypto, b: Books, id: string, groupPassword: string, asked: Option<nat>, change: nat, index: nat,
                        account: nat, key: nat) {
    && Layout.IsGroupId(id) && OpensFor(b, id, groupPassword, account, key) && (asked.None? || asked.value == account)
    && account < HARDENED && change <= 1 && index < HARDENED && env.address(env.child(key, change, index)) !in b.vaults
  }

  function DerivedAt(env: Crypto, b: Books, id: string, key: nat, account: nat, change: nat, index: nat, password: string): Books
    requires id in b.groups && account < HARDENED && change <= 1 && index < HARDENED
  {
    var secret := env.child(key, change, index);
    WithAccount(b, id, env.address(secret), Sealed(secret, password),
                Provenance("derived", id, Print(NewPath(account, change, index).value), Some(index)), index)
  }

  /**
   A derivation at a chosen index answers iff it can, and then the one account is there, under
   the caller's password and on record for the wallet. It replaces nothing: the address was free.
   */
  lemma DeriveAtExactly(env: Crypto, b: Books, id: string, groupPassword: string, password: string,
                        asked: Option<nat>, change: nat, index: nat, account: nat, key: nat)
    ensures
      var plan := DeriveAtPlan(env, b, id, groupPassword, password, asked, change, index);
      && (CanDeriveAt(env, b, id, groupPassword, asked, change, index, account, key) ==>
            && plan.answer == Ok(Derived(env.address(env.child(key, change, index)), Print(NewPath(account, change, index).value), id, index))
            && Replay(b, plan.changes) == DerivedAt(env, b, id, key, account, change, index, password))
      && (plan.answer.Err? ==> plan.changes == [])
  {
    DerivableExactly(b, Some(id), id, account);
    if CanDeriveAt(env, b, id, groupPassword, asked, change, index, account, key) {
      PersistedState(env, b, id, key, NewPath(account, change, index).value, password);
    }
  }

  lemma DeriveAtNeeds(env: Crypto, b: Books, id: string, groupPassword: string, password: string,
                      asked: Option<nat>, change: nat, index: nat) returns (account: nat, key: nat)
    requires DeriveAtPlan(env, b, id, groupPassword, password, asked, change, index).answer.Ok?
    ensures CanDeriveAt(env, b, id, groupPassword, asked, change, index, account, key)
  {
    var found := DerivableGroup(b, Some(id)).value;
    account, key := found.1, OpenGroupKey(b, id, groupPassword).value;
    DerivableExactly(b, Some(id), found.0, account);
  }

  /** Wherever it is stopped, it replaces no vault and no record of one. */
  lemma DeriveAtReplacesNothing(env: Crypto, b: Books, id: string, groupPassword: string, password: string,
                                asked: Option<nat>, change: nat, index: nat, n: nat, a: string)
    requires n <= |DeriveAtPlan(env, b, id, groupPassword, password, asked, change, index).changes| && a in b.vaults
    ensures
      var x := Replay(b, DeriveAtPlan(env, b, id, groupPassword, password, asked, change, index).changes[..n]);
      VaultOf(x, a) == VaultOf(b, a) && ProvenanceOf(x, a) == ProvenanceOf(b, a)
  {
    var ps := DeriveAtPlan(env, b, id, groupPassword, password, asked, change, index).changes;
    assert Spares(ps[..n], b.vaults.Keys);
    OnlyThese(b, ps[..n], a);
  }

  /** Changes that neither fill in nor touch this account. */
  predicate Passes(p: Prim, a: string) {
    && (p.PutVault? || p.DropVault? || p.PutProvenance? || p.FillProvenance? || p.DropProvenance? ==> p.addr != a)
  }

  lemma PassedBy(b: Books, p: Prim, a: string)
    requires Passes(p, a)
    ensures VaultOf(Apply(b, p), a) == VaultOf(b, a) && ProvenanceOf(Apply(b, p), a) == ProvenanceOf(b, a)
  {
  }

  lemma {:induction false} OnlyThese(b: Books, ps: seq<Prim>, a: string)
    requires forall i :: 0 <= i < |ps| ==> Passes(ps[i], a)
    ensures VaultOf(Replay(b, ps), a) == VaultOf(b, a) && ProvenanceOf(Replay(b, ps), a) == ProvenanceOf(b, a)
    decreases |ps|
  {
    if ps != [] {
      assert Passes(ps[0], a);
      PassedBy(b, ps[0], a);
      OnlyThese(Apply(b, ps[0]), ps[1..], a);
    }
  }

  // ---- the next derivation -------------------------------------------------------------

  /** Notes on the way leave vaults, keys and names alone. */
  predicate OnlyNotes(ps: seq<Prim>) {
    forall i :: 0 <= i < |ps| ==> ps[i].FillProvenance? || ps[i].Bump?
  }

  lemma {:induction false} NotesLeave(b: Books, ps: seq<Prim>)
    requires OnlyNotes(ps)
    ensures
      var x := Replay(b, ps);
      x.vaults == b.vaults && x.keys == b.keys && x.staged == b.staged && x.names == b.names && x.groups.Keys == b.groups.Keys
    decreases |ps|
  {
    if ps != [] {
      assert ps[0].FillProvenance? || ps[0].Bump?;
      NotesLeave(Apply(b, ps[0]), ps[1..]);
    }
  }

  lemma {:induction false} WalkNotes(env: Crypto, held: set<string>, id: string, key: nat, account: nat, change: nat,
                                     password: string, start: Index, offset: nat) returns (pre: seq<Prim>, path: Bip44Path)
    requires Walk(env, held, id, key, account, change, password, start, offset).answer.Ok?
    ensures path.Valid() && path.account == account && path.change == change && OnlyNotes(pre)
    ensures
      var plan := Walk(env, held, id, key, account, change, password, start, offset);
      plan.answer == Ok(DerivedReply(env, id, key, path)) && plan.changes == pre + PersistDerived(env, id, key, path, password)
    decreases MAX_INDEX_SCAN - offset
  {
    var index := Saturating(start + offset);
    var a := env.address(env.child(key, change, index));
    var here := NewPath(account, change, index).value;
    if a !in held {
      pre, path := [], here;
      assert [] + PersistDerived(env, id, key, path, password) == PersistDerived(env, id, key, path, password);
    } else {
      var note := [FillProvenance(a, DerivedFrom(id, here)), Bump(id, index)];
      var more;
      more, path := WalkNotes(env, held, id, key, account, change, password, start, offset + 1);
      pre := note + more;
      Rejoined(note, more, PersistDerived(env, id, key, path, password));
    }
  }

  lemma Rejoined(x: seq<Prim>, y: seq<Prim>, z: seq<Prim>)
    ensures x + (y + z) == (x + y) + z
  {
  }

  /**
   The next derivation, once it answers: the one vault it adds is the child key at the index it
   names, under the caller's password, on record for the wallet it was asked of, by its path.
   */
  lemma DerivedNext(env: Crypto, b: Books, group: Option<string>, groupPassword: string, password: string, change: nat)
    returns (id: string, account: nat, key: nat, path: Bip44Path)
    requires DeriveNextPlan(env, b, group, groupPassword, password, change).answer.Ok?
    ensures Means(b, group, id) && OpensFor(b, id, groupPassword, account, key)
    ensures path.Valid() && path.account == account && path.change == change
    ensures
      var plan := DeriveNextPlan(env, b, group, groupPassword, password, change);
      var secret := env.child(key, change, path.index);
      var a, x := env.address(secret), Replay(b, plan.changes);
      && plan.answer == Ok(Derived(a, Print(path), id, path.index))
      && x.vaults == b.vaults[a := Sealed(secret, password)]
      && a in x.provenance && x.provenance[a] == Provenance("derived", id, Print(path), Some(path.index))
      && x.keys == b.keys && x.staged == b.staged && x.names == b.names && x.groups.Keys == b.groups.Keys
  {
    var found := DerivableGroup(b, group).value;
    id, account := found.0, found.1;
    DerivableExactly(b, group, id, account);
    key := OpenGroupKey(b, id, groupPassword).value;
    var pre;
    pre, path := WalkNotes(env, b.vaults.Keys, id, key, account, change, password, NextIndex(b, id, b.groups[id]), 0);
    NotesLeave(b, pre);
    ReplayConcat(b, pre, PersistDerived(env, id, key, path, password));
    PersistedState(env, Replay(b, pre), id, key, path, password);
  }

  /** A path of this account, and the address at it held. */
  predicate TakenAt(env: Crypto, b: Books, account: nat, key: nat, change: nat, index: nat) {
    account < HARDENED && change <= 1 && index < HARDENED && env.address(env.child(key, change, index)) in b.vaults
  }

  predicate OpenAt(env: Crypto, b: Books, account: nat, key: nat, change: nat, index: nat) {
    account < HARDENED && change <= 1 && index < HARDENED && env.address(env.child(key, change, index)) !in b.vaults
  }

  /** The first free index from `start` on is this one, at most a hundred on, and all before it are taken. */
  ghost predicate FirstOpen(env: Crypto, b: Books, account: nat, key: nat, change: nat, start: nat, index: nat) {
    && start <= index < start + 100 && OpenAt(env, b, account, key, change, index)
    && forall i :: start <= i < index ==> TakenAt(env, b, account, key, change, i)
  }

  lemma OpenIsFree(env: Crypto, b: Books, account: nat, key: nat, change: nat, start: Index, k: nat)
    ensures FreeAt(env, b.vaults.Keys, key, account, change, Position(start, k)) <==> OpenAt(env, b, account, key, change, start + k)
    ensures HeldAt(env, b.vaults.Keys, key, account, change, Position(start, k)) <==> TakenAt(env, b, account, key, change, start + k)
    ensures OpenAt(env, b, account, key, change, start + k) ==> Position(start, k) == start + k
  {
  }

  lemma FirstEither(env: Crypto, b: Books, account: nat, key: nat, change: nat, start: Index, o: nat)
    ensures FirstOpen(env, b, account, key, change, start, start + o) <==> FirstFree(env, b.vaults.Keys, key, account, change, start, 0, o)
  {
    OpenIsFree(env, b, account, key, change, start, o);
    forall k: nat | k < o
      ensures HeldAt(env, b.vaults.Keys, key, account, change, Position(start, k)) <==> TakenAt(env, b, account, key, change, start + k)
    {
      OpenIsFree(env, b, account, key, change, start, k);
    }
    if forall k :: 0 <= k < o ==> HeldAt(env, b.vaults.Keys, key, account, change, Position(start, k)) {
      forall i | start <= i < start + o ensures TakenAt(env, b, account, key, change, i) {
        assert HeldAt(env, b.vaults.Keys, key, account, change, Position(start, i - start));
      }
    }
  }

  /**
   The next derivation is answered iff, of the wallet meant, one of a hundred indices from its next
   one on is free with all before it taken; and then it is that index.
   */
  lemma DeriveNextExactly(env: Crypto, b: Books, group: Option<string>, groupPassword: string, password: string, change: nat,
                          id: string, account: nat, key: nat)
    requires Means(b, group, id) && OpensFor(b, id, groupPassword, account, key)
    ensures
      var start, answer := NextIndex(b, id, b.groups[id]), DeriveNextPlan(env, b, group, groupPassword, password, change).answer;
      && (answer.Ok? ==> answer.value.Derived? && FirstOpen(env, b, account, key, change, start, answer.value.index))
      && forall index: nat :: FirstOpen(env, b, account, key, change, start, index) ==> answer.Ok? && answer.value.Derived? && answer.value.index == index
  {
    DerivableExactly(b, group, id, account);
    var start: Index := NextIndex(b, id, b.groups[id]);
    WalkAnswers(env, b, id, key, account, change, password, start);
  }

  lemma WalkAnswers(env: Crypto, b: Books, id: string, key: nat, account: nat, change: nat, password: string, start: Index)
    ensures
      var answer := Walk(env, b.vaults.Keys, id, key, account, change, password, start, 0).answer;
      && (answer.Ok? ==> answer.value.Derived? && FirstOpen(env, b, account, key, change, start, answer.value.index))
      && forall index: nat :: FirstOpen(env, b, account, key, change, start, index) ==> answer.Ok? && answer.value.Derived? && answer.value.index == index
  {
    var answer := Walk(env, b.vaults.Keys, id, key, account, change, password, start, 0).answer;
    WalkTakesTheFirstFree(env, b.vaults.Keys, id, key, account, change, password, start, 0);
    if answer.Ok? {
      var o: nat :| FirstFree(env, b.vaults.Keys, key, account, change, start, 0, o);
      FirstEither(env, b, account, key, change, start, o);
      WalkTakesIt(env, b, id, key, account, change, password, start, start + o);
    }
    forall index: nat | FirstOpen(env, b, account, key, change, start, index)
      ensures answer.Ok? && answer.value.Derived? && answer.value.index == index
    {
      WalkTakesIt(env, b, id, key, account, change, password, start, index);
    }
  }

  lemma WalkTakesIt(env: Crypto, b: Books, id: string, key: nat, account: nat, change: nat, password: string, start: Index, index: nat)
    requires FirstOpen(env, b, account, key, change, start, index)
    ensures
      var answer := Walk(env, b.vaults.Keys, id, key, account, change, password, start, 0).answer;
      answer.Ok? && answer.value.Derived? && answer.value.index == index
  {
    OpenComesFirst(env, b, account, key, change, start, index);
    WalkTakesAt(env, b.vaults.Keys, id, key, account, change, password, start, index - start);
  }

  lemma OpenComesFirst(env: Crypto, b: Books, account: nat, key: nat, change: nat, start: Index, index: nat)
    requires FirstOpen(env, b, account, key, change, start, index)
    ensures FirstFree(env, b.vaults.Keys, key, account, change, start, 0, index - start) && Position(start, index - start) == index
  {
    FirstEither(env, b, account, key, change, start, index - start);
    OpenIsFree(env, b, account, key, change, start, index - start);
  }

  lemma WalkTakesAt(env: Crypto, held: set<string>, id: string, key: nat, account: nat, change: nat, password: string, start: Index, o: nat)
    requires FirstFree(env, held, key, account, change, start, 0, o)
    ensures
      var answer := Walk(env, held, id, key, account, change, password, start, 0).answer;
      answer.Ok? && answer.value.Derived? && answer.value.index == Position(start, o)
  {
    WalkTakesTheFirstFree(env, held, id, key, account, change, password, start, 0);
  }

  // ---- giving up a key -----------------------------------------------------------------

  /** The books without a wallet's derivation key, at either path; its record, if it took, says so. */
  function WithoutKey(b: Books, id: string, record: bool): Books {
    var less := b.(keys := b.keys - {id}, staged := b.staged - {id});
    if record && id in b.groups then less.(groups := b.groups[id := b.groups[id].(storage := Plain)]) else less
  }

  /** Forgetting a key needs no password, and answers iff there is something to forget at either path. */
  lemma ForgettingExactly(b: Books, id: string, luck: Luck)
    ensures
      var plan := ForgetPlan(b, id, luck);
      && (plan.answer.Ok? <==> Layout.IsGroupId(id) && (id in b.keys || id in b.staged))
      && (plan.answer == Err(NotFound) <==> Layout.IsGroupId(id) && id !in b.keys && id !in b.staged)
      && (plan.answer.Ok? ==>
            && plan.answer.value == Forgotten(luck.record && id in b.groups, luck.record && id !in b.groups, id in b.staged)
            && Replay(b, plan.changes) == WithoutKey(b, id, luck.record))
      && (plan.answer.Err? ==> plan.changes == [])
  {
    if Layout.IsGroupId(id) && (id in b.keys || id in b.staged) {
      ForgottenBooks(b, id, luck);
    }
  }

  lemma ForgottenBooks(b: Books, id: string, luck: Luck)
    requires Layout.IsGroupId(id) && (id in b.keys || id in b.staged)
    ensures Replay(b, ForgetPlan(b, id, luck).changes) == WithoutKey(b, id, luck.record)
  {
    var first := if id in b.keys then [DropKey(id)] else [];
    var second := if id in b.staged then [DropStage(id)] else [];
    var last := Try(SetPlain(id), luck.record);
    var b1 := b.(keys := b.keys - {id});
    var b2 := b1.(staged := b.staged - {id});
    MadeIfThere(b, id in b.keys, DropKey(id), b1);
    MadeIfThere(b1, id in b.staged, DropStage(id), b2);
    ReplayConcat(b, first + second, [last]);
    ReplayConcat(b, first, second);
    PlainBooks(b, b2, id, luck.record);
  }

  lemma PlainBooks(b: Books, x: Books, id: string, record: bool)
    requires x == b.(keys := b.keys - {id}, staged := b.staged - {id})
    ensures Replay(x, [Try(SetPlain(id), record)]) == WithoutKey(b, id, record)
  {
    MadeIfThere(x, true, Try(SetPlain(id), record), WithoutKey(b, id, record));
  }

  lemma MadeIfThere(b: Books, there: bool, p: Prim, x: Books)
    requires Apply(b, p) == x && (!there ==> x == b)
    ensures Replay(b, if there then [p] else []) == x
  {
    assert [p] == [p] + [];
    ReplayCons(b, p, []);
  }

  /** A wallet is removed iff it holds neither a key nor an account and there is a record or a name to remove. */
  lemma RemovingExactly(b: Books, id: string)
    ensures
      var plan := RemoveGroupPlan(b, id);
      var free := id !in b.keys && (id in b.staged ==> b.staged[id].NoCopy?)
                  && forall a :: a in b.provenance ==> b.provenance[a].group != id;
      && (plan.answer.Ok? <==> Layout.IsGroupId(id) && free && (id in b.groups || id in b.names))
      && (plan.answer == Err(Error.Refused) <==> Layout.IsGroupId(id) && !free)
      && (plan.answer == Err(NotFound) <==> Layout.IsGroupId(id) && free && id !in b.groups && id !in b.names)
      && (plan.answer.Ok? ==>
            && plan.answer.value == Removed(id in b.groups, id in b.names)
            && Replay(b, plan.changes) == b.(groups := b.groups - {id}, names := b.names - {id}))
      && (plan.answer.Err? ==> plan.changes == [])
  {
    AccountsExactly(b, id);
    if RemoveGroupPlan(b, id).answer.Ok? {
      RemovedState(b, id);
    }
  }

  lemma AccountsExactly(b: Books, id: string)
    ensures AccountsOf(b, id) == {} <==> forall a :: a in b.provenance ==> b.provenance[a].group != id
  {
    if AccountsOf(b, id) == {} {
      forall a | a in b.provenance ensures b.provenance[a].group != id {
        assert a !in AccountsOf(b, id);
      }
    }
  }

  // ---- names ---------------------------------------------------------------------------

  /** Some trace of the wallet: a record, a key, an account or a name. */
  predicate Traced(b: Books, id: string) {
    id in b.groups || id in b.names || !HoldsNothing(b, id)
  }

  /** One of the wallet's own accounts, opened by its password. */
  predicate ProvedByAccount(env: Crypto, b: Books, id: string, address: string, password: string) {
    && address != "" && ParseAddress(address).Ok? &&
    var a := ParseAddress(address).value;
    a in b.provenance && b.provenance[a].group == id && SignerOf(env, b, address, password).Ok?
  }

  /** The wallet's own key, live, or staged where none is live, opened by its password. */
  predicate ProvedByKey(b: Books, id: string, password: string) {
    password != "" &&
    if id in b.keys then b.keys[id].Sealed? && b.keys[id].password == password
    else id in b.staged && b.staged[id].FullCopy? && b.staged[id].key.Sealed? && b.staged[id].key.password == password
  }

  /** What setting this name is priced at: clearing nothing, an account where there are any, the key where there is one. */
  predicate Priced(env: Crypto, b: Books, id: string, text: string, address: string, password: string) {
    || Trim(text) == ""
    || (AccountsOf(b, id) != {} && ProvedByAccount(env, b, id, address, password))
    || (AccountsOf(b, id) == {} && Keyed(b, id) && ProvedByKey(b, id, password))
    || HoldsNothing(b, id)
  }

  /** The books with this name for the wallet, or none; what an older build wrote in its record is gone. */
  function NamedAs(b: Books, id: string, text: string): Books {
    b.(names := if Trim(text) == "" then b.names - {id} else b.names[id := Trim(text)],
       groups := if id in b.groups && Trim(b.groups[id].oldLabel) != "" then b.groups[id := b.groups[id].(oldLabel := "")] else b.groups)
  }

  /** A wallet is named iff there is a trace of it and its price is paid; and then that is all that changed. */
  lemma NamingExactly(env: Crypto, b: Books, id: string, text: string, address: string, password: string)
    ensures
      var plan := SetLabelPlan(env, b, id, text, address, password);
      && (plan.answer.Ok? <==> Layout.IsGroupId(id) && Traced(b, id) && Priced(env, b, id, text, address, password))
      && Replay(b, plan.changes) == if plan.answer.Ok? then NamedAs(b, id, text) else b
  {
    if Layout.IsGroupId(id) && Traced(b, id) {
      CustodyExactly(env, b, id, text, address, password);
      if LabelCustody(env, b, id, text, address, password).Ok? {
        NamedBooks(b, id, text);
      }
    }
  }

  lemma CustodyExactly(env: Crypto, b: Books, id: string, text: string, address: string, password: string)
    ensures LabelCustody(env, b, id, text, address, password).Ok? <==> Priced(env, b, id, text, address, password)
  {
  }

  lemma NamedBooks(b: Books, id: string, text: string)
    ensures
      var first := if id in b.groups && Trim(b.groups[id].oldLabel) != "" then [ClearOldLabel(id)] else [];
      Replay(b, first + [NameChange(id, text)]) == NamedAs(b, id, text)
  {
    var old_ := id in b.groups && Trim(b.groups[id].oldLabel) != "";
    var first := if old_ then [ClearOldLabel(id)] else [];
    var b1 := if old_ then b.(groups := b.groups[id := b.groups[id].(oldLabel := "")]) else b;
    if old_ {
      MadeIfThere(b, true, ClearOldLabel(id), b1);
    }
    ReplayConcat(b, first, [NameChange(id, text)]);
    NamedState(b1, id, text);
    MadeIfThere(b1, true, NameChange(id, text), NamedAs(b, id, text));
  }

  // ---- an import -----------------------------------------------------------------------

  /** An import that nothing stops answers iff its path is one, its phrase a phrase, and a key to keep has a password. */
  lemma ImportingExactly(env: Crypto, req: ImportRequest, id: string, nowMs: nat, luck: Luck)
    ensures
      var plan := ImportPlan(env, req, id, nowMs, Landed, luck);
      && (plan.answer.Ok? <==>
            && req.account < HARDENED && req.change <= 1 && req.index < HARDENED
            && (req.storage == Extkey ==> req.groupPassword != "")
            && env.accountKey(req.phrase, req.passphrase, req.account).Ok?)
      && (plan.answer.Ok? ==>
            var key := env.accountKey(req.phrase, req.passphrase, req.account).value;
            plan.answer == Ok(Derived(env.address(env.child(key, req.change, req.index)),
                                      Print(NewPath(req.account, req.change, req.index).value), id, req.index)))
      && (plan.answer.Err? ==> plan.changes == [])
  {
  }

  /**
   And the books are then these: a record of what was asked, its prefix naming the BIP-44 account and
   its next index past the one used; the trimmed name, if any; the key, if one was to be kept,
   under its own password; and the account under its own, on record for the wallet.
   */
  lemma ImportedBooks(env: Crypto, b: Books, req: ImportRequest, id: string, nowMs: nat, luck: Luck)
    requires FreshId(b, id) && ImportPlan(env, req, id, nowMs, Landed, luck).answer.Ok?
    ensures req.account < HARDENED && req.change <= 1 && req.index < HARDENED
    ensures env.accountKey(req.phrase, req.passphrase, req.account).Ok?
    ensures
      var key := env.accountKey(req.phrase, req.passphrase, req.account).value;
      var secret := env.child(key, req.change, req.index);
      var a, x := env.address(secret), Replay(b, ImportPlan(env, req, id, nowMs, Landed, luck).changes);
      && id in x.groups
      && x.groups == b.groups[id := Group(req.storage, x.groups[id].pathPrefix, req.index + 1, {}, req.passphrase != "", "", nowMs)]
      && ParseAccountPrefix(x.groups[id].pathPrefix) == Ok(req.account)
      && x.names == (if Trim(req.groupLabel) == "" then b.names - {id} else b.names[id := Trim(req.groupLabel)])
      && x.keys == (if req.storage == Extkey then b.keys[id := Sealed(key, req.groupPassword)] else b.keys)
      && x.vaults == b.vaults[a := Sealed(secret, req.password)]
      && x.provenance ==
           b.provenance[a := Provenance("derived", id, Print(NewPath(req.account, req.change, req.index).value), Some(req.index))]
  {
    ImportingExactly(env, req, id, nowMs, luck);
    KeyOfImport(env, req);
    LandedImport(env, b, req, id, nowMs, luck);
    RecordOfImport(req, nowMs);
  }

  lemma KeyOfImport(env: Crypto, req: ImportRequest)
    requires req.account < HARDENED && req.change <= 1 && req.index < HARDENED && (req.storage == Extkey ==> req.groupPassword != "")
    requires env.accountKey(req.phrase, req.passphrase, req.account).Ok?
    ensures ImportKeyOf(env, req) ==
      Ok((NewPath(req.account, req.change, req.index).value, env.accountKey(req.phrase, req.passphrase, req.account).value))
    ensures
      var path := NewPath(req.account, req.change, req.index).value;
      path.account == req.account && path.change == req.change && path.index == req.index
  {
  }

  lemma RecordOfImport(req: ImportRequest, nowMs: nat)
    requires req.account < HARDENED && req.index < HARDENED
    ensures
      var g := Bumped(NewRecord(req, nowMs), req.index);
      && g == Group(req.storage, g.pathPrefix, req.index + 1, {}, req.passphrase != "", "", nowMs)
      && ParseAccountPrefix(g.pathPrefix) == Ok(req.account)
  {
    PrefixRoundTrip(req.account);
  }
}
