/**
 Whole runs of the vault store: writes and settles that may be killed at any step, and
 deletions, in any order, from an empty directory.
 */
module VaultRuns {
  import opened Base
  import opened Layout
  import opened Tree
  import opened Reports
  import opened Recovery

  datatype Event =
    | Write(addr: string, secret: Secret, password: string, steps: nat) // killed after `steps`, or whole
    | Clear(addr: string, stage: Node) // a write killed while it removes an earlier one's stage
    | Settle(left: Entries) // killed somewhere, leaving this, or whole
    | Delete(addr: string)

  function Step(es: Entries, event: Event): Entries {
    match event
    case Write(a, secret, password, steps) =>
      WriteState(es, a, secret, password, if steps < WRITE_STEPS then steps else WRITE_STEPS)
    case Clear(a, stage) => es[StageDir(a) := stage]
    case Settle(left) => left
    case Delete(a) => Deleted(es, a)
  }

  /** A settle with something to do takes the lock first, and creates its file where there is none. */
  function WithLock(es: Entries): Entries {
    Locked(FullDir(es)).entries
  }

  lemma LockTouchesNothing(es: Entries, a: string)
    requires IsAddr(a)
    ensures EntryAt(WithLock(es), VaultFile(a)) == EntryAt(es, VaultFile(a))
    ensures EntryAt(WithLock(es), StageDir(a)) == EntryAt(es, StageDir(a))
  {
    DistinctNames(a, a, "");
  }

  /** What a killed call left is something it can leave, of what it found. */
  ghost predicate CanHappen(es: Entries, event: Event) {
    match event
    case Write(a, _, _, _) => IsAddr(a)
    case Clear(a, stage) => IsAddr(a) && StageDir(a) in es && es[StageDir(a)].Dir? && Remnant(es[StageDir(a)], stage)
    case Settle(left) => left == es || MidSettle(WithLock(es), left)
    case Delete(a) => IsAddr(a)
  }

  /**
   `states[i]` is the directory before event `i`. The trigger keeps a step folded until a
   proof asks for it.
   */
  ghost predicate Ran(events: seq<Event>, states: seq<Entries>) {
    && |states| == |events| + 1
    && states[0] == map[]
    && forall i {:trigger Step(states[i], events[i])} :: 0 <= i < |events| ==>
         CanHappen(states[i], events[i]) && states[i + 1] == Step(states[i], events[i])
  }

  lemma Continues(events: seq<Event>, states: seq<Entries>, event: Event)
    requires Ran(events, states) && CanHappen(states[|events|], event)
    ensures Ran(events + [event], states + [Step(states[|events|], event)])
  {
    var more, further := events + [event], states + [Step(states[|events|], event)];
    forall i | 0 <= i < |more|
      ensures CanHappen(further[i], more[i]) && further[i + 1] == Step(further[i], more[i])
    {
      if i < |events| {
        assert states[i + 1] == Step(states[i], events[i]);
      }
    }
  }

  // ---- what can be where ---------------------------------------------------------------

  /** One of the first `n` calls wrote this vault for this account. */
  ghost predicate Wrote(events: seq<Event>, n: nat, a: string, node: Node)
    requires n <= |events|
  {
    exists i :: 0 <= i < n && events[i].Write? && events[i].addr == a
      && node == Written(events[i].secret, events[i].password)
  }

  /** Real paths hold whole vaults, stages hold a torn or a whole one, each as some call wrote it. */
  ghost predicate SoundAt(es: Entries, events: seq<Event>, n: nat, a: string)
    requires n <= |events|
  {
    && (VaultFile(a) in es ==> Wrote(events, n, a, es[VaultFile(a)]))
    && (StageDir(a) in es ==>
          && es[StageDir(a)].Dir?
          && (VaultFile(a) in es[StageDir(a)].entries ==>
                var staged := es[StageDir(a)].entries[VaultFile(a)];
                staged == File(Torn, true, true) || Wrote(events, n, a, staged)))
  }

  lemma SoundByEntries(es: Entries, x: Entries, events: seq<Event>, n: nat, a: string)
    requires n < |events| && SoundAt(es, events, n, a)
    requires EntryAt(x, VaultFile(a)) == EntryAt(es, VaultFile(a)) && EntryAt(x, StageDir(a)) == EntryAt(es, StageDir(a))
    ensures SoundAt(x, events, n + 1, a)
  {
  }

  lemma WriteKeepsSound(es: Entries, events: seq<Event>, n: nat, a: string)
    requires n < |events| && events[n].Write? && IsAddr(events[n].addr) && IsAddr(a)
    requires SoundAt(es, events, n, a)
    ensures SoundAt(Step(es, events[n]), events, n + 1, a)
  {
    var Write(b, secret, password, given) := events[n];
    var steps := if given < WRITE_STEPS then given else WRITE_STEPS;
    if steps > 0 {
      WriteStateAt(es, b, secret, password, steps);
      DistinctNames(a, b, "");
      DistinctNames(b, a, "");
      if a != b {
        SoundByEntries(es, Step(es, events[n]), events, n, a);
      } else {
        OwnWriteKeepsSound(es, events, n, steps);
      }
    } else {
      SoundByEntries(es, es, events, n, a);
    }
  }

  lemma OwnWriteKeepsSound(es: Entries, events: seq<Event>, n: nat, steps: nat)
    requires n < |events| && events[n].Write? && IsAddr(events[n].addr) && 0 < steps <= WRITE_STEPS
    requires SoundAt(es, events, n, events[n].addr)
    ensures SoundAt(WriteState(es, events[n].addr, events[n].secret, events[n].password, steps), events, n + 1, events[n].addr)
  {
    assert Wrote(events, n + 1, events[n].addr, Written(events[n].secret, events[n].password));
    DistinctNames(events[n].addr, events[n].addr, "");
  }

  lemma RemnantOfFile(x: Node, y: Node, n: string)
    requires Remnant(x, y) && x.Dir? && y.Dir? && n in y.entries
    ensures n in x.entries && (x.entries[n].File? ==> x.entries[n] == y.entries[n])
  {
    if x != y {
      assert Remnant(x.entries[n], y.entries[n]);
    }
  }

  lemma ClearKeepsSound(es: Entries, events: seq<Event>, n: nat, a: string)
    requires n < |events| && events[n].Clear? && CanHappen(es, events[n]) && IsAddr(a) && SoundAt(es, events, n, a)
    ensures SoundAt(Step(es, events[n]), events, n + 1, a)
  {
    var Clear(b, stage) := events[n];
    DistinctNames(a, b, "");
    SoundByEntries(es, es, events, n, a);
    if a == b && VaultFile(a) in stage.entries {
      RemnantOfFile(es[StageDir(a)], stage, VaultFile(a));
    }
  }

  lemma SettleKeepsSound(es: Entries, left: Entries, events: seq<Event>, n: nat, a: string)
    requires n < |events| && IsAddr(a) && SoundAt(es, events, n, a) && (left == es || MidSettle(WithLock(es), left))
    ensures SoundAt(left, events, n + 1, a)
  {
    SoundByEntries(es, es, events, n, a);
    if left != es {
      DistinctNames(a, a, "");
      VaultFilesAreNoStages(a);
      StagesAreNoVaults(a);
      LockTouchesNothing(es, a);
      var locked := WithLock(es);
      assert MidAt(locked, left, VaultFile(a)) && MidAt(locked, left, StageDir(a));
      if StageDir(a) in left && VaultFile(a) in left[StageDir(a)].entries {
        RemnantOfFile(locked[StageDir(a)], left[StageDir(a)], VaultFile(a));
      }
    }
  }

  lemma StepKeepsSound(es: Entries, events: seq<Event>, n: nat, a: string)
    requires n < |events| && CanHappen(es, events[n]) && IsAddr(a) && SoundAt(es, events, n, a)
    ensures SoundAt(Step(es, events[n]), events, n + 1, a)
  {
    match events[n] {
      case Write(_, _, _, _) => WriteKeepsSound(es, events, n, a);
      case Clear(_, _) => ClearKeepsSound(es, events, n, a);
      case Settle(left) => SettleKeepsSound(es, left, events, n, a);
      case Delete(b) =>
        DistinctNames(b, a, "");
        SoundByEntries(es, es, events, n, a);
    }
  }

  /**
   In every run, whatever was killed wherever: the real path of an account is absent or holds
   one whole vault that some call wrote for that account. A partial file is never promoted.
   */
  lemma {:induction false} RunsKeepVaultsWhole(events: seq<Event>, states: seq<Entries>, n: nat, a: string)
    requires Ran(events, states) && n <= |events| && IsAddr(a)
    ensures SoundAt(states[n], events, n, a)
  {
    if n > 0 {
      RunsKeepVaultsWhole(events, states, n - 1, a);
      assert states[n - 1 + 1] == Step(states[n - 1], events[n - 1]);
      StepKeepsSound(states[n - 1], events, n - 1, a);
    }
  }

  // ---- which vault it is ---------------------------------------------------------------

  predicate Renames(event: Event, a: string) {
    event.Write? && event.addr == a && event.steps >= RENAME_STEP
  }

  /** Among the first `n` calls, the last write of this account that renamed, unless deleted since. */
  function LastRenamed(events: seq<Event>, n: nat, a: string): Option<Node>
    requires n <= |events|
  {
    if n == 0 then None
    else if Renames(events[n - 1], a) then Some(Written(events[n - 1].secret, events[n - 1].password))
    else if events[n - 1] == Delete(a) then None
    else LastRenamed(events, n - 1, a)
  }

  /** A whole vault is left alone by everything but a rename or a deletion of its own account. */
  lemma StepKeepsVault(es: Entries, event: Event, a: string)
    requires CanHappen(es, event) && IsAddr(a)
    requires VaultFile(a) in es && es[VaultFile(a)].File?
    requires !Renames(event, a) && event != Delete(a)
    ensures EntryAt(Step(es, event), VaultFile(a)) == EntryAt(es, VaultFile(a))
  {
    match event {
      case Write(b, secret, password, steps) =>
        var n := if steps < WRITE_STEPS then steps else WRITE_STEPS;
        if n > 0 {
          WriteStateAt(es, b, secret, password, n);
        }
        DistinctNames(a, b, "");
      case Clear(b, _) =>
        DistinctNames(a, b, "");
      case Settle(left) =>
        DistinctNames(a, a, "");
        LockTouchesNothing(es, a);
        assert left != es ==> MidAt(WithLock(es), left, VaultFile(a));
      case Delete(b) =>
        DistinctNames(a, b, "");
    }
  }

  lemma RenameLands(es: Entries, event: Event, a: string)
    requires IsAddr(a) && Renames(event, a)
    ensures EntryAt(Step(es, event), VaultFile(a)) == Some(Written(event.secret, event.password))
  {
    var n := if event.steps < WRITE_STEPS then event.steps else WRITE_STEPS;
    WriteStateAt(es, a, event.secret, event.password, n);
  }

  lemma VaultAt(events: seq<Event>, states: seq<Entries>, n: nat, a: string)
    requires Ran(events, states) && n < |events| && IsAddr(a)
    ensures Renames(events[n], a) ==> EntryAt(states[n + 1], VaultFile(a)) == Some(Written(events[n].secret, events[n].password))
    ensures !Renames(events[n], a) && events[n] != Delete(a) && VaultFile(a) in states[n] && states[n][VaultFile(a)].File? ==>
      EntryAt(states[n + 1], VaultFile(a)) == EntryAt(states[n], VaultFile(a))
  {
    assert states[n + 1] == Step(states[n], events[n]);
    if Renames(events[n], a) {
      RenameLands(states[n], events[n], a);
    } else if events[n] != Delete(a) && VaultFile(a) in states[n] && states[n][VaultFile(a)].File? {
      StepKeepsVault(states[n], events[n], a);
    }
  }

  /**
   Durability over runs: once a write has renamed, every later state holds exactly that vault,
   until another write of the account renames or the account is deleted.
   */
  lemma {:induction false} TheLastRenameStands(events: seq<Event>, states: seq<Entries>, n: nat, a: string)
    requires Ran(events, states) && n <= |events| && IsAddr(a)
    requires LastRenamed(events, n, a).Some?
    ensures EntryAt(states[n], VaultFile(a)) == LastRenamed(events, n, a)
    ensures LastRenamed(events, n, a).value.File?
  {
    if !Renames(events[n - 1], a) {
      TheLastRenameStands(events, states, n - 1, a);
    }
    VaultAt(events, states, n - 1, a);
  }

  lemma LockChangesNoPromotion(es: Entries, a: string)
    requires IsAddr(a)
    ensures EntryAt(SettledEntries(WithLock(es)), VaultFile(a)) == EntryAt(SettledEntries(es), VaultFile(a))
  {
    LockTouchesNothing(es, a);
    SettleExactly(es, VaultFile(a));
    SettleExactly(WithLock(es), VaultFile(a));
    DistinctNames(a, a, "");
    VaultFilesAreNoStages(a);
  }

  // ---- a deletion undone ---------------------------------------------------------------

  /**
   Any run can go on to bring a deleted account back: a password change killed before its
   rename, the deletion, and a settle that is not even killed.
   */
  lemma ADeletionCanBeUndone(events: seq<Event>, states: seq<Entries>, a: string, secret: Secret, new_: string)
    returns (more: seq<Event>, further: seq<Entries>)
    requires Ran(events, states) && IsAddr(a)
    ensures |more| == |events| + 3 && Ran(more, further) && more[..|events|] == events && further[..|states|] == states
    ensures more[|events|] == Write(a, secret, new_, 4) && more[|events| + 1] == Delete(a)
    ensures more[|events| + 2] == Settle(SettledEntries(WithLock(further[|events| + 2])))
    ensures VaultFile(a) !in further[|events| + 2]
    ensures EntryAt(further[|events| + 3], VaultFile(a)) == Some(Written(secret, new_))
  {
    var es := states[|events|];
    var changed := WriteState(es, a, secret, new_, 4);
    var deleted := Deleted(changed, a);
    var settled := SettledEntries(WithLock(deleted));
    more, further := GoesOn(events, states, Write(a, secret, new_, 4));
    more, further := GoesOn(more, further, Delete(a));
    SettledIsMid(WithLock(deleted));
    more, further := GoesOn(more, further, Settle(settled));
    LockChangesNoPromotion(deleted, a);
    KilledChangeUndoesDeletion(es, a, secret, new_);
  }

  /** A run with one event more, and all it had before. */
  lemma GoesOn(events: seq<Event>, states: seq<Entries>, event: Event) returns (more: seq<Event>, further: seq<Entries>)
    requires Ran(events, states) && CanHappen(states[|events|], event)
    ensures Ran(more, further) && |more| == |events| + 1 && more[|events|] == event
    ensures further[|states|] == Step(states[|events|], event)
    ensures more[..|events|] == events && further[..|states|] == states
    ensures forall i :: 0 <= i < |events| ==> more[i] == events[i]
    ensures forall i :: 0 <= i < |states| ==> further[i] == states[i]
  {
    Continues(events, states, event);
    more, further := events + [event], states + [Step(states[|events|], event)];
  }
}
