/**
 Wallet calls that run side by side.

 Each actor reads what its call needs first and then makes its changes one by one; the changes
 of several actors interleave in any order, and any of them may be killed. Under that, a
 wallet that holds nothing is safe exactly while nobody is part-way through giving it something.
 */
module WalletRaces {
  import opened Base
  import opened Hd
  import Layout
  import opened Wallet
  import opened WalletSteps
  import opened WalletRuns
  import opened WalletEffects

  /** `pending` is what each actor has yet to do. */
  datatype Race = Race(books: Books, pending: map<nat, seq<Prim>>)

  datatype Move =
    | Start(actor: nat, call: Call, reached: Reached, luck: Luck)
    | Advance(actor: nat)
    | Kill(actor: nat)

  function PendingOf(w: Race, actor: nat): seq<Prim> {
    if actor in w.pending then w.pending[actor] else []
  }

  /** A call starts where its actor is idle, on what it reads then. */
  function Step(env: Crypto, w: Race, m: Move): Race {
    match m
    case Start(actor, call, reached, luck) =>
      if PendingOf(w, actor) != [] then w
      else w.(pending := w.pending[actor := PlanOf(env, w.books, call, reached, luck).changes])
    case Advance(actor) =>
      var ps := PendingOf(w, actor);
      if ps == [] then w else Race(Apply(w.books, ps[0]), w.pending[actor := ps[1..]])
    case Kill(actor) => w.(pending := w.pending - {actor})
  }

  function After(env: Crypto, w: Race, moves: seq<Move>): Race
    decreases |moves|
  {
    if moves == [] then w else After(env, Step(env, w, moves[0]), moves[1..])
  }

  predicate StartsImport(m: Move, id: string) {
    m.Start? && m.call.ImportMnemonic? && m.call.id == id
  }

  predicate NoImport(moves: seq<Move>, id: string) {
    forall i :: 0 <= i < |moves| ==> !StartsImport(moves[i], id)
  }

  /** Nobody is part-way through a call that could give the wallet a key or an account. */
  ghost predicate NobodyFeeds(w: Race, id: string) {
    forall actor: nat :: NoneFeeds(PendingOf(w, actor), id)
  }

  lemma TailFeedsNothing(ps: seq<Prim>, id: string)
    requires NoneFeeds(ps, id) && ps != []
    ensures NoneFeeds(ps[1..], id)
  {
  }

  lemma PlansFeedNothing(env: Crypto, b: Books, call: Call, reached: Reached, luck: Luck, id: string)
    requires HoldsNothing(b, id) && id != "" && !(call.ImportMnemonic? && call.id == id)
    ensures NoneFeeds(PlanOf(env, b, call, reached, luck).changes, id)
  {
    EmptyIsNeverFed(env, b, Event(call, reached, luck, 0), id);
  }

  lemma StepStaysEmpty(env: Crypto, w: Race, m: Move, id: string)
    requires HoldsNothing(w.books, id) && NobodyFeeds(w, id) && id != "" && !StartsImport(m, id)
    ensures HoldsNothing(Step(env, w, m).books, id) && NobodyFeeds(Step(env, w, m), id)
  {
    var x := Step(env, w, m);
    assert NoneFeeds(PendingOf(w, m.actor), id);
    match m {
      case Start(actor, call, reached, luck) =>
        PlansFeedNothing(env, w.books, call, reached, luck, id);
      case Advance(actor) =>
        var ps := PendingOf(w, actor);
        if ps != [] {
          UnfedStep(w.books, ps[0], id);
          TailFeedsNothing(ps, id);
        }
      case Kill(_) =>
    }
    forall actor: nat ensures NoneFeeds(PendingOf(x, actor), id) {
      assert NoneFeeds(PendingOf(w, actor), id);
    }
  }

  /** Holding nothing is for good, however calls interleave, once nobody is giving the wallet anything. */
  lemma {:induction false} RacesStayEmpty(env: Crypto, w: Race, moves: seq<Move>, id: string)
    requires HoldsNothing(w.books, id) && NobodyFeeds(w, id) && id != "" && NoImport(moves, id)
    ensures HoldsNothing(After(env, w, moves).books, id) && NobodyFeeds(After(env, w, moves), id)
    decreases |moves|
  {
    if moves != [] {
      assert !StartsImport(moves[0], id);
      StepStaysEmpty(env, w, moves[0], id);
      RacesStayEmpty(env, Step(env, w, moves[0]), moves[1..], id);
    }
  }

  /** A change that gives the wallet something whatever else is on disk. */
  predicate Gives(p: Prim, id: string) {
    Feeds(p, id) && !p.FillProvenance?
  }

  lemma GivingFills(b: Books, p: Prim, id: string)
    requires Gives(p, id)
    ensures !HoldsNothing(Apply(b, p), id)
  {
    if p.PutProvenance? {
      assert p.addr in AccountsOf(Apply(b, p), id);
    }
  }

  function Advances(actor: nat, n: nat): seq<Move> {
    if n == 0 then [] else [Advance(actor)] + Advances(actor, n - 1)
  }

  lemma {:induction false} AdvancesImportNothing(actor: nat, n: nat, id: string)
    ensures NoImport(Advances(actor, n), id)
  {
    if n > 0 {
      AdvancesImportNothing(actor, n - 1, id);
    }
  }

  /** Everybody else has as much left to do as before. */
  ghost predicate OthersWait(w: Race, x: Race, actor: nat) {
    forall other: nat :: other != actor ==> PendingOf(x, other) == PendingOf(w, other)
  }

  /** An actor left alone gets as far as it likes. */
  lemma {:induction false} AloneItAdvances(env: Crypto, w: Race, actor: nat, n: nat)
    requires n <= |PendingOf(w, actor)|
    ensures After(env, w, Advances(actor, n)).books == Replay(w.books, PendingOf(w, actor)[..n])
    ensures PendingOf(After(env, w, Advances(actor, n)), actor) == PendingOf(w, actor)[n..]
    ensures OthersWait(w, After(env, w, Advances(actor, n)), actor)
    decreases n
  {
    if n > 0 {
      var ps := PendingOf(w, actor);
      var x := Step(env, w, Advance(actor));
      assert Advances(actor, n)[1..] == Advances(actor, n - 1);
      AloneItAdvances(env, x, actor, n - 1);
      assert PendingOf(x, actor) == ps[1..];
      assert ps[..n][1..] == ps[1..][..n - 1] && ps[..n][0] == ps[0] && ps[1..][n - 1..] == ps[n..];
    }
  }

  lemma {:induction false} AfterBoth(env: Crypto, w: Race, first: seq<Move>, then_: seq<Move>)
    ensures After(env, w, first + then_) == After(env, After(env, w, first), then_)
    decreases |first|
  {
    if first == [] {
      assert first + then_ == then_;
    } else {
      assert (first + then_)[1..] == first[1..] + then_ && (first + then_)[0] == first[0];
      AfterBoth(env, Step(env, w, first[0]), first[1..], then_);
    }
  }

  lemma NoImportBoth(first: seq<Move>, then_: seq<Move>, id: string)
    requires NoImport(first, id) && NoImport(then_, id)
    ensures NoImport(first + then_, id)
  {
  }

  const GOES_WELL: Luck := Luck(true, true, true, true, true)

  /** A whole call, made while everybody else waits. */
  function Made(env: Crypto, w: Race, actor: nat, call: Call): seq<Move> {
    [Start(actor, call, Landed, GOES_WELL)] + Advances(actor, |PlanOf(env, w.books, call, Landed, GOES_WELL).changes|)
  }

  lemma CallIsMade(env: Crypto, w: Race, actor: nat, call: Call)
    requires PendingOf(w, actor) == []
    ensures
      var x := After(env, w, Made(env, w, actor, call));
      && x.books == Replay(w.books, PlanOf(env, w.books, call, Landed, GOES_WELL).changes)
      && PendingOf(x, actor) == [] && OthersWait(w, x, actor)
    ensures !call.ImportMnemonic? ==> forall id :: NoImport(Made(env, w, actor, call), id)
  {
    var ps := PlanOf(env, w.books, call, Landed, GOES_WELL).changes;
    var start := Start(actor, call, Landed, GOES_WELL);
    var begun := Step(env, w, start);
    assert PendingOf(begun, actor) == ps && ps[..|ps|] == ps && ps[|ps|..] == [];
    AloneItAdvances(env, begun, actor, |ps|);
    assert ([start] + Advances(actor, |ps|))[1..] == Advances(actor, |ps|);
    forall id | !call.ImportMnemonic? ensures NoImport(Made(env, w, actor, call), id) {
      AdvancesImportNothing(actor, |ps|, id);
      NoImportBoth([start], Advances(actor, |ps|), id);
    }
  }

  /** Whoever is part-way through giving the wallet something needs only to go on. */
  lemma PendingGiftsArrive(env: Crypto, w: Race, actor: nat, k: nat, id: string) returns (moves: seq<Move>)
    requires k < |PendingOf(w, actor)| && Gives(PendingOf(w, actor)[k], id)
    ensures NoImport(moves, id) && !HoldsNothing(After(env, w, moves).books, id)
  {
    var ps := PendingOf(w, actor);
    moves := Advances(actor, k + 1);
    AdvancesImportNothing(actor, k + 1, id);
    AloneItAdvances(env, w, actor, k + 1);
    assert ps[..k + 1] == ps[..k] + [ps[k]];
    ReplayConcat(w.books, ps[..k], [ps[k]]);
    assert [ps[k]] == [ps[k]] + [];
    ReplayCons(Replay(w.books, ps[..k]), ps[k], []);
    GivingFills(Replay(w.books, ps[..k]), ps[k], id);
  }

  // ---- walking past accounts that are held ---------------------------------------------

  /** These are the changes of some call. */
  ghost predicate OfACall(env: Crypto, whole: seq<Prim>) {
    exists b, call, reached, luck :: whole == PlanOf(env, b, call, reached, luck).changes
  }

  ghost predicate EndOf(env: Crypto, ps: seq<Prim>, whole: seq<Prim>, n: nat) {
    OfACall(env, whole) && n <= |whole| && ps == whole[n..]
  }

  /** What is left of the changes of some call. */
  ghost predicate RestOfACall(env: Crypto, ps: seq<Prim>) {
    exists whole, n: nat :: EndOf(env, ps, whole, n)
  }

  /** Whoever has something left to do is part-way through a call. */
  ghost predicate AllInCalls(env: Crypto, w: Race) {
    forall actor: nat :: PendingOf(w, actor) != [] ==> RestOfACall(env, PendingOf(w, actor))
  }

  lemma WholeIsRest(env: Crypto, b: Books, call: Call, reached: Reached, luck: Luck)
    ensures RestOfACall(env, PlanOf(env, b, call, reached, luck).changes)
  {
    var changes := PlanOf(env, b, call, reached, luck).changes;
    assert changes[0..] == changes;
    assert EndOf(env, changes, changes, 0);
  }

  lemma TailIsRest(env: Crypto, ps: seq<Prim>)
    requires ps != [] && RestOfACall(env, ps)
    ensures RestOfACall(env, ps[1..])
  {
    var whole, n: nat :| EndOf(env, ps, whole, n);
    assert whole[n..][1..] == whole[n + 1..];
    assert EndOf(env, ps[1..], whole, n + 1);
  }

  lemma StepStaysInCalls(env: Crypto, w: Race, m: Move)
    requires AllInCalls(env, w)
    ensures AllInCalls(env, Step(env, w, m))
  {
    var x := Step(env, w, m);
    var ps := PendingOf(w, m.actor);
    if m.Start? {
      WholeIsRest(env, w.books, m.call, m.reached, m.luck);
    } else if ps != [] {
      TailIsRest(env, ps);
    }
    forall actor: nat | PendingOf(x, actor) != [] ensures RestOfACall(env, PendingOf(x, actor)) {
      assert actor != m.actor ==> PendingOf(x, actor) == PendingOf(w, actor);
    }
  }

  /** It is so in every race that starts with nobody at work. */
  lemma {:induction false} RacesAreOfCalls(env: Crypto, w: Race, moves: seq<Move>)
    requires AllInCalls(env, w)
    ensures AllInCalls(env, After(env, w, moves))
    decreases |moves|
  {
    if moves != [] {
      StepStaysInCalls(env, w, moves[0]);
      RacesAreOfCalls(env, Step(env, w, moves[0]), moves[1..]);
    }
  }

  /** An account noted in passing is some key's, and only notes for the same wallet come before it. */
  ghost predicate Notes(env: Crypto, ps: seq<Prim>, k: nat)
    requires k < |ps|
  {
    ps[k].FillProvenance? ==>
      && (exists secret :: env.address(secret) == ps[k].addr)
      && forall i :: 0 <= i < k ==> ps[i].Bump? || (ps[i].FillProvenance? && ps[i].p.group == ps[k].p.group)
  }

  ghost predicate OnlyNotes(env: Crypto, ps: seq<Prim>) {
    forall k :: 0 <= k < |ps| ==> Notes(env, ps, k)
  }

  lemma {:induction false} WalkOnlyNotes(env: Crypto, held: set<string>, id: string, key: nat, account: nat, change: nat,
                                         password: string, start: Index, offset: nat)
    ensures
      var ps := Walk(env, held, id, key, account, change, password, start, offset).changes;
      && OnlyNotes(env, ps) && forall k :: 0 <= k < |ps| && ps[k].FillProvenance? ==> ps[k].p.group == id
    decreases MAX_INDEX_SCAN - offset
  {
    var ps := Walk(env, held, id, key, account, change, password, start, offset).changes;
    if offset < MAX_INDEX_SCAN && NewPath(account, change, Saturating(start + offset)).Ok? {
      var index := Saturating(start + offset);
      var a := env.address(env.child(key, change, index));
      if a in held {
        var rest := Walk(env, held, id, key, account, change, password, start, offset + 1).changes;
        WalkOnlyNotes(env, held, id, key, account, change, password, start, offset + 1);
        TwoBefore(env, ps, rest, id);
      }
    }
  }

  lemma TwoBefore(env: Crypto, ps: seq<Prim>, rest: seq<Prim>, id: string)
    requires |ps| == |rest| + 2 && ps[2..] == rest && ps[0].FillProvenance? && ps[0].p.group == id && ps[1].Bump?
    requires exists secret :: env.address(secret) == ps[0].addr
    requires OnlyNotes(env, rest) && forall k :: 0 <= k < |rest| && rest[k].FillProvenance? ==> rest[k].p.group == id
    ensures OnlyNotes(env, ps) && forall k :: 0 <= k < |ps| && ps[k].FillProvenance? ==> ps[k].p.group == id
  {
    forall k | 0 <= k < |ps| ensures ps[k].FillProvenance? ==> ps[k].p.group == id {
      assert k >= 2 ==> ps[k] == rest[k - 2];
    }
    forall k | 0 <= k < |ps| ensures Notes(env, ps, k) {
      if k >= 2 {
        assert ps[k] == rest[k - 2] && Notes(env, rest, k - 2);
        forall i | 2 <= i < k ensures ps[i] == rest[i - 2] {
        }
      }
    }
  }

  predicate NotesNothing(ps: seq<Prim>) {
    forall k :: 0 <= k < |ps| ==> !ps[k].FillProvenance?
  }

  lemma ImportNotesNothing(env: Crypto, req: ImportRequest, id: string, nowMs: nat, path: Bip44Path, key: nat,
                           reached: Reached, luck: Luck)
    requires path.Valid()
    ensures NotesNothing(ImportChanges(env, req, id, nowMs, path, key, reached, luck))
  {
    var ps := ImportForward(env, req, id, nowMs, path, key, reached, luck);
    ImportGoesForward(env, req, id, nowMs, path, key, reached, luck);
    forall k | 0 <= k < |ps| ensures !ps[k].FillProvenance? {
      assert Forward(ps[k], id);
    }
  }

  lemma PlansOnlyNote(env: Crypto, b: Books, call: Call, reached: Reached, luck: Luck)
    ensures OnlyNotes(env, PlanOf(env, b, call, reached, luck).changes)
  {
    match call {
      case ImportMnemonic(req, id, nowMs) =>
        if ImportKeyOf(env, req).Ok? {
          var (path, key) := ImportKeyOf(env, req).value;
          ImportNotesNothing(env, req, id, nowMs, path, key, reached, luck);
        }
      case DeriveNext(group, groupPassword, password, change) =>
        var found := DerivableGroup(b, group);
        if found.Ok? && OpenGroupKey(b, found.value.0, groupPassword).Ok? && found.value.0 in b.groups {
          WalkOnlyNotes(env, b.vaults.Keys, found.value.0, OpenGroupKey(b, found.value.0, groupPassword).value, found.value.1,
                        change, password, NextIndex(b, found.value.0, b.groups[found.value.0]), 0);
        }
      case _ =>
        assert NotesNothing(PlanOf(env, b, call, reached, luck).changes);
    }
  }

  lemma WholeOnlyNotes(env: Crypto, whole: seq<Prim>)
    requires OfACall(env, whole)
    ensures OnlyNotes(env, whole)
  {
    var b, call, reached, luck :| whole == PlanOf(env, b, call, reached, luck).changes;
    PlansOnlyNote(env, b, call, reached, luck);
  }

  lemma EndOnlyNotes(env: Crypto, whole: seq<Prim>, n: nat)
    requires OnlyNotes(env, whole) && n <= |whole|
    ensures OnlyNotes(env, whole[n..])
  {
    var ps := whole[n..];
    forall k | 0 <= k < |ps| ensures Notes(env, ps, k) {
      assert Notes(env, whole, n + k) && ps[k] == whole[n + k];
      forall i | 0 <= i < k ensures ps[i] == whole[n + i] {
      }
    }
  }

  lemma RestsOnlyNote(env: Crypto, ps: seq<Prim>)
    requires RestOfACall(env, ps)
    ensures OnlyNotes(env, ps)
  {
    var whole, n: nat :| EndOf(env, ps, whole, n);
    WholeOnlyNotes(env, whole);
    EndOnlyNotes(env, whole, n);
  }

  /** Vault addresses are spelled as they are parsed. */
  ghost predicate AddressesParse(env: Crypto) {
    forall secret :: ParseAddress(env.address(secret)) == Ok(env.address(secret))
  }

  /** An account can be put and taken again, and is then on no record. */
  lemma Unrecorded(env: Crypto, w: Race, actor: nat, secret: nat) returns (moves: seq<Move>)
    requires AddressesParse(env) && PendingOf(w, actor) == []
    ensures forall id :: NoImport(moves, id)
    ensures env.address(secret) !in After(env, w, moves).books.provenance
    ensures OthersWait(w, After(env, w, moves), actor)
  {
    var a := env.address(secret);
    var import_, delete_ := ImportKey("", secret, ""), DeleteAccount(a, "");
    CallIsMade(env, w, actor, import_);
    var put := After(env, w, Made(env, w, actor, import_));
    PutThenTaken(env, w.books, secret);
    CallIsMade(env, put, actor, delete_);
    var first, second := Made(env, w, actor, import_), Made(env, put, actor, delete_);
    AfterBoth(env, w, first, second);
    moves := first + second;
    forall id ensures NoImport(moves, id) {
      NoImportBoth(first, second, id);
    }
  }

  lemma ReplayTwo(b: Books, p: Prim, q: Prim)
    ensures Replay(b, [p, q]) == Apply(Apply(b, p), q)
  {
    assert [p, q] == [p] + ([q] + []);
    ReplayCons(b, p, [q] + []);
    ReplayCons(Apply(b, p), q, []);
  }

  lemma PutThenTaken(env: Crypto, b: Books, secret: nat)
    requires AddressesParse(env)
    ensures
      var a := env.address(secret);
      var put := Replay(b, ImportKeyPlan(env, "", secret, "").changes);
      a !in Replay(put, DeletePlan(env, put, a, "").changes).provenance
  {
    var a := env.address(secret);
    var whole, none := Sealed(secret, ""), Provenance("", "", "", None);
    ReplayTwo(b, PutVault(a, whole), PutProvenance(a, none));
    var put := Replay(b, ImportKeyPlan(env, "", secret, "").changes);
    assert put.vaults[a] == whole && put.provenance[a] == none;
    ReplayTwo(put, DropVault(a), DropProvenance(a));
    assert DeletePlan(env, put, a, "").changes == [DropVault(a), DropProvenance(a)];
  }

  /** The first change that gives the wallet something, wherever in these. */
  lemma FirstFeed(ps: seq<Prim>, id: string) returns (k: nat)
    requires !NoneFeeds(ps, id)
    ensures k < |ps| && Feeds(ps[k], id) && NoneFeeds(ps[..k], id)
  {
    k := 0;
    while !Feeds(ps[k], id)
      invariant k < |ps| && NoneFeeds(ps[..k], id) && !NoneFeeds(ps, id)
      decreases |ps| - k
    {
      assert exists i :: 0 <= i < |ps| && Feeds(ps[i], id);
      k := k + 1;
    }
  }

  lemma {:induction false} BumpsRecordNothing(b: Books, ps: seq<Prim>)
    requires forall i :: 0 <= i < |ps| ==> ps[i].Bump?
    ensures Replay(b, ps).provenance == b.provenance
    decreases |ps|
  {
    if ps != [] {
      assert ps[0].Bump?;
      BumpsRecordNothing(Apply(b, ps[0]), ps[1..]);
    }
  }

  /** Whoever walks past an account has only to wait until it is on no record. */
  lemma PendingNotesArrive(env: Crypto, w: Race, actor: nat, k: nat, id: string) returns (moves: seq<Move>)
    requires AddressesParse(env) && k < |PendingOf(w, actor)| && OnlyNotes(env, PendingOf(w, actor))
    requires
      var ps := PendingOf(w, actor);
      ps[k].FillProvenance? && ps[k].p.group == id && NoneFeeds(ps[..k], id)
    ensures NoImport(moves, id) && !HoldsNothing(After(env, w, moves).books, id)
  {
    var ps := PendingOf(w, actor);
    var p := ps[k];
    assert Notes(env, ps, k);
    var secret :| env.address(secret) == p.addr;
    var free := [Kill(actor + 1)];
    var idle := After(env, w, free);
    assert free[1..] == [] && idle == After(env, Step(env, w, free[0]), []);
    var clear := Unrecorded(env, idle, actor + 1, secret);
    var x := After(env, idle, clear);
    assert PendingOf(x, actor) == PendingOf(idle, actor) == ps;
    var go := Advances(actor, k + 1);
    AloneItAdvances(env, x, actor, k + 1);
    AdvancesImportNothing(actor, k + 1, id);
    NoteLands(x.books, ps, k, id);
    AfterBoth(env, w, free, clear);
    AfterBoth(env, w, free + clear, go);
    NoImportBoth(free, clear, id);
    NoImportBoth(free + clear, go, id);
    moves := free + clear + go;
  }

  lemma NoteLands(b: Books, ps: seq<Prim>, k: nat, id: string)
    requires k < |ps| && ps[k].FillProvenance? && ps[k].p.group == id && NoneFeeds(ps[..k], id)
    requires forall i :: 0 <= i < k ==> ps[i].Bump? || (ps[i].FillProvenance? && ps[i].p.group == ps[k].p.group)
    requires ps[k].addr !in b.provenance
    ensures !HoldsNothing(Replay(b, ps[..k + 1]), id)
  {
    var pre := ps[..k];
    forall i | 0 <= i < |pre| ensures pre[i].Bump? {
      assert !Feeds(pre[i], id) && pre[i] == ps[i];
    }
    BumpsRecordNothing(b, pre);
    assert ps[..k + 1] == pre + [ps[k]] && [ps[k]] == [ps[k]] + [];
    ReplayConcat(b, pre, [ps[k]]);
    ReplayCons(Replay(b, pre), ps[k], []);
    assert ps[k].addr in AccountsOf(Replay(b, ps[..k + 1]), id);
  }

  /**
   The exact condition. A wallet that holds nothing goes on holding nothing in every
   interleaving without its own import, iff no actor has a change pending that would give it
   something; an account noted in passing is one, even where it is on record just now.
   */
  lemma SafeExactlyWhenNobodyFeeds(env: Crypto, w: Race, id: string)
    requires HoldsNothing(w.books, id) && id != "" && AllInCalls(env, w) && AddressesParse(env)
    ensures NobodyFeeds(w, id) <==>
      forall moves :: NoImport(moves, id) ==> HoldsNothing(After(env, w, moves).books, id)
  {
    if NobodyFeeds(w, id) {
      forall moves | NoImport(moves, id) ensures HoldsNothing(After(env, w, moves).books, id) {
        RacesStayEmpty(env, w, moves, id);
      }
    } else {
      var actor: nat :| !NoneFeeds(PendingOf(w, actor), id);
      var k := FirstFeed(PendingOf(w, actor), id);
      RestsOnlyNote(env, PendingOf(w, actor));
      var moves;
      if Gives(PendingOf(w, actor)[k], id) {
        moves := PendingGiftsArrive(env, w, actor, k, id);
      } else {
        moves := PendingNotesArrive(env, w, actor, k, id);
      }
    }
  }

  // ---- a removal overtaken -------------------------------------------------------------

  lemma PersistedWithoutRecord(env: Crypto, b: Books, id: string, key: nat, path: Bip44Path, password: string)
    requires path.Valid() && id !in b.groups
    ensures
      var x := Replay(b, PersistDerived(env, id, key, path, password));
      x.groups == b.groups && env.address(env.child(key, path.change, path.index)) in AccountsOf(x, id)
  {
    var secret := env.child(key, path.change, path.index);
    var a := env.address(secret);
    ReplayThree(b, PutVault(a, Sealed(secret, password)), PutProvenance(a, DerivedFrom(id, path)), Bump(id, path.index));
  }

  /** What the derivation leaves, made after the other two although it began before them. */
  lemma OvertakenState(env: Crypto, b: Books, id: string, groupPassword: string, password: string, change: nat, index: nat)
    requires AccountsOf(b, id) == {} && DeriveAtPlan(env, b, id, groupPassword, password, None, change, index).answer.Ok?
    ensures
      var forgotten := Replay(b, ForgetPlan(b, id, GOES_WELL).changes);
      var removed := Replay(forgotten, RemoveGroupPlan(forgotten, id).changes);
      var overtaken := Replay(removed, DeriveAtPlan(env, b, id, groupPassword, password, None, change, index).changes);
      && RemoveGroupPlan(forgotten, id).answer.Ok? && FreshId(removed, id)
      && AccountsOf(overtaken, id) != {} && id !in overtaken.groups && !Keyed(overtaken, id)
  {
    var derive := DeriveAtPlan(env, b, id, groupPassword, password, None, change, index).changes;
    var account := DerivableGroup(b, Some(id)).value.1;
    var path := Bip44Path(account, change, index);
    var key := OpenGroupKey(b, id, groupPassword).value;
    assert derive == PersistDerived(env, id, key, path, password);
    GivenUpWithoutTrace(b, id, GOES_WELL);
    var forgotten := Replay(b, ForgetPlan(b, id, GOES_WELL).changes);
    var removed := Replay(forgotten, RemoveGroupPlan(forgotten, id).changes);
    PersistedWithoutRecord(env, removed, id, key, path, password);
    KeysAsideRun(removed, derive);
  }

  /**
   Checking and then acting is not safe across processes. One actor begins a derivation and has
   opened its key, another forgets the key and removes the wallet, both of which see no account,
   and then the first goes on: an account whose wallet has no record and no key.
   */
  lemma ARemovalCanBeOvertaken(env: Crypto, b: Books, id: string, groupPassword: string, password: string, change: nat, index: nat)
    returns (before: seq<Move>, after: seq<Move>)
    requires AccountsOf(b, id) == {} && DeriveAtPlan(env, b, id, groupPassword, password, None, change, index).answer.Ok?
    ensures
      var removed := After(env, Race(b, map[]), before);
      var overtaken := After(env, Race(b, map[]), before + after).books;
      && FreshId(removed.books, id) && PendingOf(removed, 1) == []
      && AccountsOf(overtaken, id) != {} && id !in overtaken.groups && !Keyed(overtaken, id)
    ensures before != [] && before[0] == Start(0, DeriveAt(id, groupPassword, password, None, change, index), Landed, GOES_WELL)
    ensures after == Advances(0, |DeriveAtPlan(env, b, id, groupPassword, password, None, change, index).changes|)
  {
    var start := Start(0, DeriveAt(id, groupPassword, password, None, change, index), Landed, GOES_WELL);
    var derive := DeriveAtPlan(env, b, id, groupPassword, password, None, change, index).changes;
    var idle := Race(b, map[]);
    var w := Step(env, idle, start);
    assert PendingOf(w, 0) == derive && PendingOf(w, 1) == [] && w.books == b;
    var given := GivenUp(env, w, id);
    var removed := After(env, w, given);
    before, after := [start] + given, Advances(0, |derive|);
    assert before[1..] == given;
    AloneItAdvances(env, removed, 0, |derive|);
    assert derive[..|derive|] == derive;
    OvertakenState(env, b, id, groupPassword, password, change, index);
    AfterBoth(env, idle, before, after);
  }

  /** A second actor forgets the key and removes the wallet. */
  lemma GivenUp(env: Crypto, w: Race, id: string) returns (moves: seq<Move>)
    requires PendingOf(w, 1) == []
    ensures
      var x := After(env, w, moves);
      var forgotten := Replay(w.books, ForgetPlan(w.books, id, GOES_WELL).changes);
      && x.books == Replay(forgotten, RemoveGroupPlan(forgotten, id).changes)
      && PendingOf(x, 1) == [] && PendingOf(x, 0) == PendingOf(w, 0)
  {
    CallIsMade(env, w, 1, ForgetDerivation(id));
    var forget := Made(env, w, 1, ForgetDerivation(id));
    var x := After(env, w, forget);
    CallIsMade(env, x, 1, RemoveGroup(id));
    var remove := Made(env, x, 1, RemoveGroup(id));
    AfterBoth(env, w, forget, remove);
    moves := forget + remove;
  }
}
