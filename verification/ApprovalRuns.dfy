/**
 Whole runs of the approval ledger: what holds after any sequence of calls, in any order,
 with any instants, any random bits and any passwords.
 */
module ApprovalRuns {
  import opened Base
  import opened Text
  import opened Commitment
  import opened Approval
  import opened Handles

  /**
   `states[i]` is the ledger before call `i`. The trigger keeps a step folded until a proof
   asks for it.
   */
  ghost predicate Ran(env: Env, calls: seq<Call>, states: seq<Ledger>) {
    && |states| == |calls| + 1
    && states[0] == NO_RECORDS
    && forall i :: 0 <= i < |calls| ==> Stepped(env, calls, states, i)
  }

  predicate Stepped(env: Env, calls: seq<Call>, states: seq<Ledger>, i: nat)
    requires i < |calls| && |states| == |calls| + 1
  {
    states[i + 1] == Step(env, states[i], calls[i]).0
  }

  function ReplyAt(env: Env, calls: seq<Call>, states: seq<Ledger>, i: nat): Reply
    requires i < |calls| < |states|
  {
    Step(env, states[i], calls[i]).1
  }

  /** What handle `h` answers once the first `i` calls are done. */
  function At(states: seq<Ledger>, i: nat, h: string): Option<Record>
    requires i < |states|
  {
    Find(states[i].records, h)
  }

  lemma {:induction false} RunsAreDistinct(env: Env, calls: seq<Call>, states: seq<Ledger>, i: nat)
    requires Ran(env, calls, states) && i <= |calls|
    ensures Distinct(states[i])
  {
    if i > 0 {
      RunsAreDistinct(env, calls, states, i - 1);
      assert Stepped(env, calls, states, i - 1);
      StepOnHandles(env, states[i - 1], calls[i - 1], "");
    }
  }

  /** One call of a run, seen from one handle. */
  lemma AtStep(env: Env, calls: seq<Call>, states: seq<Ledger>, i: nat, h: string)
    requires Ran(env, calls, states) && i < |calls|
    ensures Distinct(states[i])
    ensures At(states, i + 1, h) == Fate(env, states[i], calls[i], h)
    ensures states[i].minted <= states[i + 1].minted
  {
    RunsAreDistinct(env, calls, states, i);
    assert Stepped(env, calls, states, i);
    StepOnHandles(env, states[i], calls[i], h);
  }

  // ---- what every record is ------------------------------------------------------------

  /** A record is what its own request made it, and has results only once approved. */
  predicate Sound(env: Env, r: Record) {
    && (r.results.Some? ==> r.state == Settled(Approved))
    && (r.settledAt.Some? ==> r.state.Settled?)
    && r.bundleId == CommitmentOf(env, r.intent)
    && RenderLines(env, r.intent, r.bundleId) == Ok(r.renderLines)
    && r.claimLines == ClaimLines(r.intent)
  }

  predicate SameRequest(r: Record, to: Record) {
    && r.handle == to.handle && r.receiptHash == to.receiptHash && r.requester == to.requester
    && r.intent == to.intent && r.bundleId == to.bundleId && r.offeredAt == to.offeredAt
    && r.claimLines == to.claimLines && r.renderLines == to.renderLines
  }

  predicate Shows(c: Call, h: string) {
    c.AcknowledgeCall? && c.handle == h
  }

  /** A call that erases the results a record with this receipt digest holds. */
  predicate Erases(env: Env, c: Call, h: string, want: Hash) {
    Erasing(c) && c.handle == h && env.sha256(c.receipt) == want
  }

  /** An approval of `h` that the ledger granted. */
  predicate Grants(env: Env, l: Ledger, c: Call, h: string) {
    c.ApproveCall? && c.handle == h && Step(env, l, c).1.count.Ok?
  }

  lemma OpeningsAreNew(env: Env, l: Ledger, c: Call)
    requires Distinct(l) && Opens(env, l, c).Some?
    ensures MintOf(Opens(env, l, c).value.handle) == l.minted + 1 == Step(env, l, c).0.minted
    ensures Sound(env, Opens(env, l, c).value)
  {
    RequestOnHandles(env, l, c, "");
  }

  lemma Known(l: Ledger, h: string)
    requires Distinct(l) && Find(l.records, h).Some?
    ensures 0 < MintOf(h) <= l.minted
  {
    if MintOf(h) == 0 || MintOf(h) > l.minted {
      OutsideTheClimb(l.records, 0, l.minted, h);
    }
  }

  lemma FateKeepsSound(env: Env, l: Ledger, c: Call, h: string)
    requires Distinct(l)
    requires Find(l.records, h).Some? ==> Sound(env, Find(l.records, h).value)
    ensures Fate(env, l, c, h).Some? ==> Sound(env, Fate(env, l, c, h).value)
  {
    if c.RequestCall? && Opens(env, l, c).Some? {
      OpeningsAreNew(env, l, c);
    }
    if Passed(env, l, c, h).Some? {
      PassingFollows(env, l, c, h);
      ChangeFollows(env, Finds(l, c), c, Passed(env, l, c, h).value);
    }
  }

  /** A handle that was minted and is gone stays gone. */
  lemma GoneStaysGone(env: Env, l: Ledger, c: Call, h: string)
    requires Distinct(l) && MintOf(h) <= l.minted && Find(l.records, h).None?
    ensures Fate(env, l, c, h).None?
  {
    if c.RequestCall? && Opens(env, l, c).Some? {
      OpeningsAreNew(env, l, c);
    }
  }

  /** An approval that would sign this record. */
  predicate Signs(env: Env, c: Call, r: Record) {
    && c.ApproveCall? && c.handle == r.handle
    && Signing(env.(signerFor := c.vaults), r, c.echo, c.password).Ok?
  }

  /** What a call may do to a record, and which call it takes. */
  predicate Follows(env: Env, c: Call, r: Record, x: Record) {
    && SameRequest(r, x)
    && (r.state.Settled? ==> x.state == r.state)
    && (r.settledAt.Some? ==> x.settledAt == r.settledAt)
    && (x.state == Rendered && r.state != Rendered ==> Shows(c, r.handle))
    && (x.results != r.results ==> Signs(env, c, r) || (x.results.None? && Erases(env, c, r.handle, r.receiptHash)))
  }

  lemma AgingFollows(env: Env, c: Call, r: Record, ttl: Time)
    requires Aged(Some(r), c.now, ttl).Some?
    ensures
      var x := Aged(Some(r), c.now, ttl).value;
      && Follows(env, c, r, x) && x.results == r.results && (Sound(env, r) ==> Sound(env, x))
      && (x.state == Rendered ==> x == r)
  {
  }

  lemma ErasingFollows(env: Env, c: Call, r: Record)
    requires Erases(env, c, r.handle, r.receiptHash)
    ensures Follows(env, c, r, Erased(c, r)) && Erased(c, r).results.None?
    ensures Sound(env, r) ==> Sound(env, Erased(c, r))
  {
  }

  lemma PassingFollows(env: Env, l: Ledger, c: Call, h: string)
    requires Passed(env, l, c, h).Some?
    ensures Find(l.records, h).Some? && Follows(env, c, Find(l.records, h).value, Passed(env, l, c, h).value)
    ensures Sound(env, Find(l.records, h).value) ==> Sound(env, Passed(env, l, c, h).value)
    ensures !Erasing(c) ==> Passed(env, l, c, h).value.results == Find(l.records, h).value.results
    ensures !Erasing(c) && Passed(env, l, c, h).value.state == Rendered ==> Passed(env, l, c, h) == Find(l.records, h)
  {
    var r := Find(l.records, h).value;
    if Erasing(c) && c.handle == h && !Mismatched(env, l, c) {
      ErasingFollows(env, c, r);
      AgingFollows(env, c, Erased(c, r), l.ttl);
    } else if !c.SetTtlCall? && !Mismatched(env, l, c) {
      AgingFollows(env, c, r, l.ttl);
    }
  }

  lemma ChangeFollows(env: Env, found: bool, c: Call, r: Record)
    ensures Follows(env, c, r, Changed(env, found, c, r))
    ensures Sound(env, r) ==> Sound(env, Changed(env, found, c, r))
    ensures Erasing(c) ==> Changed(env, found, c, r) == r
  {
  }

  /** The ledger grants exactly the approvals that sign the record on display. */
  lemma GrantsAreSignings(env: Env, l: Ledger, c: Call, h: string)
    requires Distinct(l)
    requires Find(l.records, h).Some? ==> Sound(env, Find(l.records, h).value)
    ensures Grants(env, l, c, h) <==>
      c.ApproveCall? && c.handle == h && Find(l.records, h).Some? && Signs(env, c, Find(l.records, h).value)
    ensures Grants(env, l, c, h) ==> Find(l.records, h).value.state == Rendered
  {
    DecisionsOnHandles(env, l, c);
    if c.ApproveCall? && Aged(Find(l.records, c.handle), c.now, l.ttl).Some? {
      AgingFollows(env, c, Find(l.records, c.handle).value, l.ttl);
    }
  }

  lemma FateFollows(env: Env, l: Ledger, c: Call, h: string)
    requires Distinct(l) && Find(l.records, h).Some? && Fate(env, l, c, h).Some?
    ensures Follows(env, c, Find(l.records, h).value, Fate(env, l, c, h).value)
  {
    Known(l, h);
    if c.RequestCall? && Opens(env, l, c).Some? {
      OpeningsAreNew(env, l, c);
    }
    PassingFollows(env, l, c, h);
    ChangeFollows(env, Finds(l, c), c, Passed(env, l, c, h).value);
  }

  lemma SoundAt(env: Env, calls: seq<Call>, states: seq<Ledger>, i: nat, h: string)
    requires Ran(env, calls, states) && i < |calls| && At(states, i + 1, h).Some?
    requires At(states, i, h).Some? ==> Sound(env, At(states, i, h).value)
    ensures Sound(env, At(states, i + 1, h).value)
  {
    AtStep(env, calls, states, i, h);
    FateKeepsSound(env, states[i], calls[i], h);
  }

  lemma {:induction false} AlwaysSound(env: Env, calls: seq<Call>, states: seq<Ledger>, i: nat, h: string)
    requires Ran(env, calls, states) && i <= |calls| && At(states, i, h).Some?
    ensures Sound(env, At(states, i, h).value)
  {
    if i > 0 {
      if At(states, i - 1, h).Some? {
        AlwaysSound(env, calls, states, i - 1, h);
      }
      SoundAt(env, calls, states, i - 1, h);
    }
  }

  lemma {:induction false} IndexOfSelf(rs: seq<Record>, lo: nat, hi: nat, k: nat)
    requires Climbs(rs, lo, hi) && k < |rs|
    ensures IndexOf(rs, rs[k].handle) == k && MintOf(rs[k].handle) > lo
  {
    if k > 0 {
      IndexOfSelf(rs[1..], MintOf(rs[0].handle), hi, k - 1);
    }
  }

  /** In every run: distinct handles, each record sound. */
  lemma RecordsAreSound(env: Env, calls: seq<Call>, states: seq<Ledger>, n: nat)
    requires Ran(env, calls, states) && n <= |calls|
    ensures forall i, j :: 0 <= i < j < |states[n].records| ==> states[n].records[i].handle != states[n].records[j].handle
    ensures forall i :: 0 <= i < |states[n].records| ==> Sound(env, states[n].records[i])
  {
    RunsAreDistinct(env, calls, states, n);
    var l := states[n];
    forall i | 0 <= i < |l.records|
      ensures IndexOf(l.records, l.records[i].handle) == i && Sound(env, l.records[i])
    {
      IndexOfSelf(l.records, 0, l.minted, i);
      AlwaysSound(env, calls, states, n, l.records[i].handle);
    }
  }

  // ---- from one moment to a later one --------------------------------------------------

  /** One call, seen from an issued handle. */
  lemma Moves(env: Env, calls: seq<Call>, states: seq<Ledger>, i: nat, h: string)
    requires Ran(env, calls, states) && i < |calls| && MintOf(h) <= states[i].minted
    ensures MintOf(h) <= states[i + 1].minted
    ensures At(states, i, h).None? ==> At(states, i + 1, h).None?
    ensures At(states, i, h).Some? && At(states, i + 1, h).Some? ==>
      Follows(env, calls[i], At(states, i, h).value, At(states, i + 1, h).value)
  {
    AtStep(env, calls, states, i, h);
    if At(states, i, h).None? {
      GoneStaysGone(env, states[i], calls[i], h);
    } else if At(states, i + 1, h).Some? {
      FateFollows(env, states[i], calls[i], h);
    }
  }

  /** An issued handle keeps its request and its outcome, and once gone is gone. */
  lemma {:induction false} Onward(env: Env, calls: seq<Call>, states: seq<Ledger>, i: nat, j: nat, h: string)
    requires Ran(env, calls, states) && i <= j <= |calls| && MintOf(h) <= states[i].minted
    ensures MintOf(h) <= states[j].minted
    ensures At(states, i, h).None? ==> At(states, j, h).None?
    ensures At(states, i, h).Some? && At(states, j, h).Some? ==>
      var r, x := At(states, i, h).value, At(states, j, h).value;
      && SameRequest(r, x)
      && (r.state.Settled? ==> x.state == r.state && (r.results.None? ==> x.results.None?))
  {
    if i < j {
      Onward(env, calls, states, i, j - 1, h);
      Moves(env, calls, states, j - 1, h);
    }
  }

  /** A settled outcome never changes. */
  lemma OutcomesAreFinal(env: Env, calls: seq<Call>, states: seq<Ledger>, i: nat, j: nat, h: string)
    requires Ran(env, calls, states) && i <= j <= |calls|
    requires At(states, i, h).Some? && At(states, i, h).value.state.Settled?
    requires At(states, j, h).Some?
    ensures At(states, j, h).value.state == At(states, i, h).value.state
  {
    RunsAreDistinct(env, calls, states, i);
    Known(states[i], h);
    Onward(env, calls, states, i, j, h);
  }

  /** A request that was given this handle. */
  predicate Gives(env: Env, l: Ledger, c: Call, h: string) {
    c.RequestCall? && Step(env, l, c).1.r.Ok? && Step(env, l, c).1.r.value.0 == h
  }

  lemma GivenIsNew(env: Env, l: Ledger, c: Call, h: string)
    requires Distinct(l) && Gives(env, l, c, h)
    ensures l.minted < MintOf(h) <= Step(env, l, c).0.minted
  {
    RequestOnHandles(env, l, c, "");
    OpeningsAreNew(env, l, c);
  }

  lemma MintedAt(env: Env, calls: seq<Call>, states: seq<Ledger>, i: nat)
    requires Ran(env, calls, states) && i < |calls|
    ensures Distinct(states[i]) && states[i].minted <= states[i + 1].minted
    ensures states[i + 1] == Step(env, states[i], calls[i]).0
  {
    AtStep(env, calls, states, i, "");
    assert Stepped(env, calls, states, i);
  }

  lemma GivenAt(env: Env, calls: seq<Call>, states: seq<Ledger>, i: nat, h: string)
    requires Ran(env, calls, states) && i < |calls| && Gives(env, states[i], calls[i], h)
    ensures states[i].minted < MintOf(h) <= states[i + 1].minted
  {
    MintedAt(env, calls, states, i);
    GivenIsNew(env, states[i], calls[i], h);
  }

  lemma {:induction false} MintedGrows(env: Env, calls: seq<Call>, states: seq<Ledger>, i: nat, j: nat)
    requires Ran(env, calls, states) && i <= j <= |calls|
    ensures states[i].minted <= states[j].minted
  {
    if i < j {
      MintedGrows(env, calls, states, i, j - 1);
      MintedAt(env, calls, states, j - 1);
    }
  }

  /** Two requests never get the same handle, whatever the random bits were. */
  lemma HandlesAreNeverReused(env: Env, calls: seq<Call>, states: seq<Ledger>, i: nat, j: nat, g: string, h: string)
    requires Ran(env, calls, states) && i < j < |calls|
    requires Gives(env, states[i], calls[i], g) && Gives(env, states[j], calls[j], h)
    ensures g != h
  {
    GivenAt(env, calls, states, i, g);
    GivenLater(env, calls, states, i, j, g, h);
  }

  lemma GivenLater(env: Env, calls: seq<Call>, states: seq<Ledger>, i: nat, j: nat, g: string, h: string)
    requires Ran(env, calls, states) && i < j < |calls| && MintOf(g) <= states[i + 1].minted && Gives(env, states[j], calls[j], h)
    ensures g != h
  {
    GivenAt(env, calls, states, j, h);
    MintedGrows(env, calls, states, i + 1, j);
  }

  /** The request that opened `h`, before call `i`. */
  predicate RequestedBy(env: Env, calls: seq<Call>, states: seq<Ledger>, k: nat, r: Record)
    requires |calls| < |states|
  {
    && k < |calls| && calls[k].RequestCall?
    && calls[k].requester == r.requester && calls[k].parsed == Some(r.intent)
    && ReplyAt(env, calls, states, k).r.Ok?
    && ReplyAt(env, calls, states, k).r.value.0 == r.handle
    && env.sha256(ReplyAt(env, calls, states, k).r.value.1) == r.receiptHash
  }

  lemma RequestedAt(env: Env, calls: seq<Call>, states: seq<Ledger>, i: nat, h: string)
    requires Ran(env, calls, states) && i < |calls| && At(states, i + 1, h).Some?
    ensures
      var x := At(states, i + 1, h).value;
      && x.handle == h
      && if At(states, i, h).Some? then SameRequest(At(states, i, h).value, x) else RequestedBy(env, calls, states, i, x)
  {
    AtStep(env, calls, states, i, h);
    if At(states, i, h).Some? {
      FateFollows(env, states[i], calls[i], h);
    } else {
      OnlyRequestsOpen(env, states[i], calls[i], h);
    }
  }

  lemma OnlyRequestsOpen(env: Env, l: Ledger, c: Call, h: string)
    requires Find(l.records, h).None? && Fate(env, l, c, h).Some?
    ensures c.RequestCall? && Step(env, l, c).1.r.Ok?
    ensures
      var x, (handle, receipt) := Fate(env, l, c, h).value, Step(env, l, c).1.r.value;
      && c.requester == x.requester && c.parsed == Some(x.intent)
      && handle == x.handle == h && env.sha256(receipt) == x.receiptHash
  {
  }

  /** Every record holds the intent and the requester of the request that was given its handle. */
  lemma {:induction false} EveryRecordWasRequested(env: Env, calls: seq<Call>, states: seq<Ledger>, i: nat, h: string) returns (k: nat)
    requires Ran(env, calls, states) && i <= |calls| && At(states, i, h).Some?
    ensures k < i && RequestedBy(env, calls, states, k, At(states, i, h).value)
    ensures At(states, i, h).value.handle == h
    decreases i, 0
  {
    NothingAtFirst(env, calls, states, h);
    k := RequestedUpTo(env, calls, states, i - 1, h);
  }

  lemma {:induction false} RequestedUpTo(env: Env, calls: seq<Call>, states: seq<Ledger>, i: nat, h: string) returns (k: nat)
    requires Ran(env, calls, states) && i < |calls| && At(states, i + 1, h).Some?
    ensures k <= i && RequestedBy(env, calls, states, k, At(states, i + 1, h).value)
    ensures At(states, i + 1, h).value.handle == h
    decreases i, 1
  {
    if At(states, i, h).Some? {
      k := EveryRecordWasRequested(env, calls, states, i, h);
      KeptItsRequest(env, calls, states, i, k, h);
    } else {
      k := i;
      RequestedAt(env, calls, states, i, h);
    }
  }

  lemma NothingAtFirst(env: Env, calls: seq<Call>, states: seq<Ledger>, h: string)
    requires Ran(env, calls, states)
    ensures At(states, 0, h).None?
  {
  }

  lemma KeptItsRequest(env: Env, calls: seq<Call>, states: seq<Ledger>, i: nat, k: nat, h: string)
    requires Ran(env, calls, states) && i < |calls| && At(states, i, h).Some? && At(states, i + 1, h).Some?
    requires RequestedBy(env, calls, states, k, At(states, i, h).value) && At(states, i, h).value.handle == h
    ensures RequestedBy(env, calls, states, k, At(states, i + 1, h).value) && At(states, i + 1, h).value.handle == h
  {
    RequestedAt(env, calls, states, i, h);
    StillRequestedBy(env, calls, states, k, At(states, i, h).value, At(states, i + 1, h).value);
  }

  lemma StillRequestedBy(env: Env, calls: seq<Call>, states: seq<Ledger>, k: nat, r: Record, x: Record)
    requires |calls| < |states| && RequestedBy(env, calls, states, k, r) && SameRequest(r, x) && x.handle == r.handle
    ensures RequestedBy(env, calls, states, k, x)
  {
  }

  // ---- what is signed is what was last shown -------------------------------------------

  /** The last acknowledgement, among the first `n` calls, that found a record. */
  function LastShown(env: Env, calls: seq<Call>, states: seq<Ledger>, n: nat): (k: Option<nat>)
    requires n <= |calls| < |states|
    ensures k.Some? ==> k.value < n && calls[k.value].AcknowledgeCall?
  {
    if n == 0 then None
    else if calls[n - 1].AcknowledgeCall? && ReplyAt(env, calls, states, n - 1) != Shown(Err(NotFound)) then Some(n - 1)
    else LastShown(env, calls, states, n - 1)
  }

  /** An acknowledgement that finds a record returns the only one it leaves on display. */
  lemma AcknowledgedIsShown(env: Env, l: Ledger, c: Call, h: string)
    requires Distinct(l) && c.AcknowledgeCall? && Step(env, l, c).1 != Shown(Err(NotFound))
    requires Fate(env, l, c, h).Some? && Fate(env, l, c, h).value.state == Rendered
    ensures c.handle == h && Step(env, l, c).1 == Shown(Ok(ViewOf(Fate(env, l, c, h).value)))
  {
    DecisionsOnHandles(env, l, c);
  }

  /** The record on display is the one the last acknowledgement that found any returned. */
  lemma {:induction false} DisplayedWasLastShown(env: Env, calls: seq<Call>, states: seq<Ledger>, i: nat, h: string)
    requires Ran(env, calls, states) && i <= |calls|
    requires At(states, i, h).Some? && At(states, i, h).value.state == Rendered
    ensures LastShown(env, calls, states, i).Some?
    ensures
      var k := LastShown(env, calls, states, i).value;
      k < i && Shows(calls[k], h) && ReplyAt(env, calls, states, k) == Shown(Ok(ViewOf(At(states, i, h).value)))
  {
    assert i > 0;
    var n := i - 1;
    AtStep(env, calls, states, n, h);
    var l, c := states[n], calls[n];
    if c.AcknowledgeCall? && ReplyAt(env, calls, states, n) != Shown(Err(NotFound)) {
      AcknowledgedIsShown(env, l, c, h);
    } else {
      StaysOnDisplay(env, l, c, h);
      DisplayedWasLastShown(env, calls, states, n, h);
    }
  }

  /** Only an acknowledgement that finds a record puts one on display. */
  lemma StaysOnDisplay(env: Env, l: Ledger, c: Call, h: string)
    requires Distinct(l) && Fate(env, l, c, h).Some? && Fate(env, l, c, h).value.state == Rendered
    requires c.AcknowledgeCall? ==> Step(env, l, c).1 == Shown(Err(NotFound))
    ensures Find(l.records, h).Some? && Find(l.records, h).value.state == Rendered
    ensures ViewOf(Find(l.records, h).value) == ViewOf(Fate(env, l, c, h).value)
  {
    if Find(l.records, h).None? {
      NewIsNotShown(env, l, c, h);
    } else {
      if c.AcknowledgeCall? {
        DecisionsOnHandles(env, l, c);
      }
      FoundStaysShown(env, l, c, h);
    }
  }

  lemma NewIsNotShown(env: Env, l: Ledger, c: Call, h: string)
    requires Distinct(l) && Find(l.records, h).None? && Fate(env, l, c, h).Some?
    ensures Fate(env, l, c, h).value.state != Rendered
  {
    if Opens(env, l, c).Some? {
      OpeningsAreNew(env, l, c);
    }
  }

  lemma FoundStaysShown(env: Env, l: Ledger, c: Call, h: string)
    requires Distinct(l) && Find(l.records, h).Some? && Fate(env, l, c, h).Some? && Fate(env, l, c, h).value.state == Rendered
    requires c.AcknowledgeCall? ==> !Finds(l, c)
    ensures Find(l.records, h).value.state == Rendered
    ensures ViewOf(Find(l.records, h).value) == ViewOf(Fate(env, l, c, h).value)
  {
    FateFollows(env, l, c, h);
  }

  /** At most one record is on display. */
  lemma OneOnDisplay(env: Env, calls: seq<Call>, states: seq<Ledger>, n: nat, i: nat, j: nat)
    requires Ran(env, calls, states) && n <= |calls|
    requires i < |states[n].records| && states[n].records[i].state == Rendered
    requires j < |states[n].records| && states[n].records[j].state == Rendered
    ensures i == j
  {
    RunsAreDistinct(env, calls, states, n);
    var l := states[n];
    IndexOfSelf(l.records, 0, l.minted, i);
    IndexOfSelf(l.records, 0, l.minted, j);
    DisplayedWasLastShown(env, calls, states, n, l.records[i].handle);
    DisplayedWasLastShown(env, calls, states, n, l.records[j].handle);
  }

  /** `results` are the legs' signatures, in order, all under the one signer. */
  predicate SignaturesOf(env: Env, signer: Signer, legs: seq<Leg>, results: seq<string>) {
    && |results| == |legs|
    && forall m :: 0 <= m < |legs| ==>
      PayloadOf(legs[m]).Ok? && env.sign(signer, PayloadOf(legs[m]).value) == Ok(results[m])
  }

  lemma AllLegsAreSigned(env: Env, signer: Signer, legs: seq<Leg>)
    requires SignLegs(env, signer, legs).Ok?
    ensures SignaturesOf(env, signer, legs, SignLegs(env, signer, legs).value)
  {
    var f := leg => SignLeg(env, signer, leg);
    CollectInOrder(f, legs);
    forall m | 0 <= m < |legs|
      ensures SignLeg(env, signer, legs[m]) == Ok(SignLegs(env, signer, legs).value[m])
    {
      assert f(legs[m]) == SignLeg(env, signer, legs[m]);
    }
  }

  /** What one granted approval leaves behind. */
  lemma GrantedApproval(env: Env, l: Ledger, c: Call, h: string)
    requires Distinct(l) && Grants(env, l, c, h)
    ensures Find(l.records, h).Some? && Fate(env, l, c, h).Some?
    ensures
      var r, x := Find(l.records, h).value, Fate(env, l, c, h).value;
      && r.state == Rendered && SameRequest(r, x)
      && Echoed(c.echo) == HexOfBytes(r.bundleId)
      && x.state == Settled(Approved) && x.results.Some?
      && c.vaults(r.intent.address, c.password).Ok?
      && SignaturesOf(env, c.vaults(r.intent.address, c.password).value, r.intent.legs, x.results.value)
      && ReplyCount(env, l, c) == |r.intent.legs|
  {
    GrantedSigns(env, l, c, h);
    SigningSigns(env, c, Aged(Find(l.records, h), c.now, l.ttl).value);
  }

  /** What was granted signs, as the record stood when it was asked for. */
  lemma GrantedSigns(env: Env, l: Ledger, c: Call, h: string)
    requires Distinct(l) && Grants(env, l, c, h)
    ensures Find(l.records, h).Some? && Aged(Find(l.records, h), c.now, l.ttl).Some?
    ensures
      var r := Aged(Find(l.records, h), c.now, l.ttl).value;
      && Signs(env, c, r)
      && Step(env, l, c).1.count == Ok(|Signing(env.(signerFor := c.vaults), r, c.echo, c.password).value|)
  {
    DecisionsOnHandles(env, l, c);
  }

  lemma SigningSigns(env: Env, c: Call, r: Record)
    requires Signs(env, c, r)
    ensures r.state == Rendered && Echoed(c.echo) == HexOfBytes(r.bundleId)
    ensures c.vaults(r.intent.address, c.password).Ok?
    ensures SignaturesOf(env, c.vaults(r.intent.address, c.password).value, r.intent.legs,
                         Signing(env.(signerFor := c.vaults), r, c.echo, c.password).value)
  {
    AllLegsAreSigned(env.(signerFor := c.vaults), c.vaults(r.intent.address, c.password).value, r.intent.legs);
  }

  function ReplyCount(env: Env, l: Ledger, c: Call): nat
    requires c.ApproveCall? && Step(env, l, c).1.count.Ok?
  {
    Step(env, l, c).1.count.value
  }

  /**
   What is signed is what was last shown. A granted approval follows an acknowledgement of
   the same handle, with none in between that found a record; that acknowledgement returned
   the bundle id the approver echoed and the lines rendered from the very intent whose legs
   the results are the signatures of.
   */
  lemma SignedIsShown(env: Env, calls: seq<Call>, states: seq<Ledger>, i: nat, h: string)
    requires Ran(env, calls, states) && i < |calls| && Grants(env, states[i], calls[i], h)
    ensures LastShown(env, calls, states, i).Some? && At(states, i + 1, h).Some?
    ensures
      var k, x := LastShown(env, calls, states, i).value, At(states, i + 1, h).value;
      && Shows(calls[k], h)
      && ReplyAt(env, calls, states, k) == Shown(Ok(View(h, Echoed(calls[i].echo), x.requester, x.claimLines, x.renderLines)))
      && Echoed(calls[i].echo) == HexOfBytes(CommitmentOf(env, x.intent))
      && RenderLines(env, x.intent, CommitmentOf(env, x.intent)) == Ok(x.renderLines)
      && x.claimLines == ClaimLines(x.intent)
    ensures
      var x := At(states, i + 1, h).value;
      && calls[i].vaults(x.intent.address, calls[i].password).Ok? && x.results.Some?
      && SignaturesOf(env, calls[i].vaults(x.intent.address, calls[i].password).value, x.intent.legs, x.results.value)
  {
    AtStep(env, calls, states, i, h);
    GrantedApproval(env, states[i], calls[i], h);
    DisplayedWasLastShown(env, calls, states, i, h);
    AlwaysSound(env, calls, states, i, h);
    var k := EveryRecordWasRequested(env, calls, states, i, h);
  }

  /** Each handle is signed at most once. */
  lemma SignedOnce(env: Env, calls: seq<Call>, states: seq<Ledger>, i: nat, j: nat, h: string)
    requires Ran(env, calls, states) && i < j < |calls| && Grants(env, states[i], calls[i], h)
    ensures !Grants(env, states[j], calls[j], h)
  {
    GrantedStays(env, calls, states, i, j, h);
    RunsAreDistinct(env, calls, states, j);
    if At(states, j, h).Some? {
      AlwaysSound(env, calls, states, j, h);
    }
    GrantsAreSignings(env, states[j], calls[j], h);
  }

  // ---- the honest path -----------------------------------------------------------------

  lemma {:induction false} HexOfBytesIsHex(bytes: seq<bv8>)
    ensures forall k :: 0 <= k < |HexOfBytes(bytes)| ==> IsLowerHex(HexOfBytes(bytes)[k])
  {
    if bytes != [] {
      HexOfBytesIsHex(bytes[1..]);
    }
  }

  /** A displayed bundle id is a good echo of itself, with or without the `0x`. */
  lemma DisplayedIsEchoed(id: Hash)
    ensures Echoed(HexOfBytes(id)) == HexOfBytes(id) && Echoed("0x" + HexOfBytes(id)) == HexOfBytes(id)
  {
    var h := HexOfBytes(id);
    HexOfBytesIsHex(id);
    HexOfBytesLength(id);
    assert IsLowerHex(h[0]) && IsLowerHex(h[1]) && IsLowerHex(h[63]);
    TrimKeepsBounded(h);
    assert !StartsWith(h, "0x") by {
      assert h[..2][1] == h[1];
    }
    var marked := "0x" + h;
    assert marked[0] == '0' && marked[65] == h[63];
    TrimKeepsBounded(marked);
    assert marked[..2] == "0x" && marked[2..] == h;
    assert TrimStartMatches(marked, "0x") == TrimStartMatches(h, "0x");
  }

  lemma OfferStands(env: Env, l: Ledger, c: Call)
    requires Distinct(l) && c.RequestCall? && Step(env, l, c).1.r.Ok?
    ensures
      var o := Find(Step(env, l, c).0.records, Step(env, l, c).1.r.value.0);
      && o.Some? && o.value.state == Offered && o.value.settledAt.None? && o.value.offeredAt == c.offeredAt
      && c.parsed == Some(o.value.intent) && Sound(env, o.value) && o.value.handle == Step(env, l, c).1.r.value.0
    ensures Distinct(Step(env, l, c).0) && Step(env, l, c).0.ttl == l.ttl
  {
    RequestOnHandles(env, l, c, Step(env, l, c).1.r.value.0);
  }

  lemma OfferIsShown(env: Env, l: Ledger, c: Call)
    requires Distinct(l) && c.AcknowledgeCall? && Find(l.records, c.handle).Some?
    requires
      var r := Find(l.records, c.handle).value;
      r.state == Offered && r.settledAt.None? && Elapsed(c.now, r.offeredAt) <= l.ttl && r.handle == c.handle
    ensures Step(env, l, c).1 == Shown(Ok(ViewOf(Find(l.records, c.handle).value)))
    ensures Find(Step(env, l, c).0.records, c.handle) == Some(Find(l.records, c.handle).value.(state := Rendered))
    ensures Distinct(Step(env, l, c).0)
  {
    DecisionsOnHandles(env, l, c);
    AcknowledgeOnHandles(env, l, c, c.handle);
  }

  lemma ShownIsSigned(env: Env, l: Ledger, c: Call)
    requires Distinct(l) && c.ApproveCall? && Find(l.records, c.handle).Some?
    requires
      var r := Find(l.records, c.handle).value;
      && r.state == Rendered && r.settledAt.None? && r.bundleId == CommitmentOf(env, r.intent)
      && Echoed(c.echo) == HexOfBytes(r.bundleId) && c.vaults(r.intent.address, c.password).Ok?
      && SignLegs(env.(signerFor := c.vaults), c.vaults(r.intent.address, c.password).value, r.intent.legs).Ok?
    ensures Step(env, l, c).1.count.Ok?
  {
    DecisionsOnHandles(env, l, c);
  }

  /**
   The honest path is open: an offer acknowledged in time shows its bundle id, and an approval
   that echoes it, with a password that opens the account and legs that sign, is granted.
   */
  lemma HonestPathSigns(env: Env, l: Ledger, offer: Call, show: Call, approve: Call)
    requires Distinct(l) && offer.RequestCall? && Step(env, l, offer).1.r.Ok?
    requires show.AcknowledgeCall? && show.handle == Step(env, l, offer).1.r.value.0
    requires Elapsed(show.now, offer.offeredAt) <= l.ttl
    requires approve.ApproveCall? && approve.handle == show.handle
    requires
      var intent := offer.parsed.value;
      && approve.echo == HexOfBytes(CommitmentOf(env, intent))
      && approve.vaults(intent.address, approve.password).Ok?
      && SignLegs(env.(signerFor := approve.vaults), approve.vaults(intent.address, approve.password).value, intent.legs).Ok?
    ensures
      var shown := Step(env, Step(env, l, offer).0, show);
      && shown.1.view.Ok? && shown.1.view.value.bundleId == approve.echo
      && Grants(env, shown.0, approve, show.handle)
  {
    OfferStands(env, l, offer);
    var l1 := Step(env, l, offer).0;
    OfferIsShown(env, l1, show);
    DisplayedIsEchoed(CommitmentOf(env, offer.parsed.value));
    ShownIsSigned(env, Step(env, l1, show).0, approve);
  }

  // ---- results and outcomes last -------------------------------------------------------

  /** Nothing from call `i` on and before call `j` erases the results of `h`. */
  predicate Unerased(env: Env, calls: seq<Call>, i: nat, j: nat, h: string, want: Hash)
    requires j <= |calls|
  {
    forall m :: i <= m < j ==> !Erases(env, calls[m], h, want)
  }

  lemma {:induction false} ResultsStay(env: Env, calls: seq<Call>, states: seq<Ledger>, i: nat, j: nat, h: string)
    requires Ran(env, calls, states) && i <= j <= |calls|
    requires At(states, i, h).Some? && At(states, i, h).value.results.Some?
    requires Unerased(env, calls, i, j, h, At(states, i, h).value.receiptHash)
    ensures At(states, j, h).Some? && SameRequest(At(states, i, h).value, At(states, j, h).value)
    ensures At(states, j, h).value.results == At(states, i, h).value.results
  {
    if i < j {
      ResultsStay(env, calls, states, i, j - 1, h);
      UncollectedAt(env, calls, states, j - 1, h);
    }
  }

  lemma UncollectedAt(env: Env, calls: seq<Call>, states: seq<Ledger>, i: nat, h: string)
    requires Ran(env, calls, states) && i < |calls| && At(states, i, h).Some? && At(states, i, h).value.results.Some?
    requires !Erases(env, calls[i], h, At(states, i, h).value.receiptHash)
    ensures At(states, i + 1, h).Some? && SameRequest(At(states, i, h).value, At(states, i + 1, h).value)
    ensures At(states, i + 1, h).value.results == At(states, i, h).value.results
  {
    AtStep(env, calls, states, i, h);
    AlwaysSound(env, calls, states, i, h);
    UncollectedIsKept(env, states[i], calls[i], h);
    FateFollows(env, states[i], calls[i], h);
  }

  lemma UncollectedIsKept(env: Env, l: Ledger, c: Call, h: string)
    requires Distinct(l) && Find(l.records, h).Some? && Sound(env, Find(l.records, h).value)
    requires Find(l.records, h).value.results.Some? && !Erases(env, c, h, Find(l.records, h).value.receiptHash)
    ensures Fate(env, l, c, h).Some?
  {
  }

  /**
   From the moment a record has results, as a granted approval leaves it, every fetch with the
   receipt returns that list, however late it comes, until a call with the receipt erases it.
   */
  lemma ResultsLast(env: Env, calls: seq<Call>, states: seq<Ledger>, i: nat, j: nat, h: string)
    requires Ran(env, calls, states) && i <= j < |calls|
    requires At(states, i, h).Some? && At(states, i, h).value.results.Some?
    requires Unerased(env, calls, i, j, h, At(states, i, h).value.receiptHash)
    requires calls[j].FetchCall? && calls[j].handle == h
    requires env.sha256(calls[j].receipt) == At(states, i, h).value.receiptHash
    ensures ReplyAt(env, calls, states, j) == Fetched(Ok(At(states, i, h).value.results.value))
  {
    ResultsStay(env, calls, states, i, j, h);
    RunsAreDistinct(env, calls, states, j);
    AlwaysSound(env, calls, states, j, h);
    FetchOfUncollected(env, states[j], calls[j]);
  }

  lemma FetchOfUncollected(env: Env, l: Ledger, c: Call)
    requires Distinct(l) && c.FetchCall? && Holds(Find(l.records, c.handle), env.sha256(c.receipt))
    requires Sound(env, Find(l.records, c.handle).value) && Find(l.records, c.handle).value.results.Some?
    ensures Step(env, l, c).1 == Fetched(Ok(Find(l.records, c.handle).value.results.value))
  {
    RepliesOnHandles(env, l, c);
  }

  lemma SettledErasure(env: Env, l: Ledger, c: Call, h: string)
    requires Find(l.records, h).Some? && Find(l.records, h).value.state.Settled?
    requires Erases(env, c, h, Find(l.records, h).value.receiptHash)
    ensures Fate(env, l, c, h).Some? ==> Fate(env, l, c, h).value.results.None? && Fate(env, l, c, h).value.state.Settled?
  {
  }

  lemma FetchesAreResults(env: Env, l: Ledger, c: Call)
    requires Distinct(l) && c.FetchCall? && Step(env, l, c).1.results.Ok?
    ensures Find(l.records, c.handle).Some? && Find(l.records, c.handle).value.results == Some(Step(env, l, c).1.results.value)
    ensures Holds(Find(l.records, c.handle), env.sha256(c.receipt))
  {
    RepliesOnHandles(env, l, c);
    AgingFollows(env, c, Find(l.records, c.handle).value, l.ttl);
  }

  lemma SettledErasedStays(env: Env, calls: seq<Call>, states: seq<Ledger>, m: nat, j: nat, h: string)
    requires Ran(env, calls, states) && m < j <= |calls| && At(states, m, h).Some? && At(states, m, h).value.state.Settled?
    requires Erases(env, calls[m], h, At(states, m, h).value.receiptHash)
    ensures At(states, j, h).Some? ==> At(states, j, h).value.results.None?
  {
    AtStep(env, calls, states, m, h);
    Known(states[m], h);
    SettledErasure(env, states[m], calls[m], h);
    Onward(env, calls, states, m + 1, j, h);
  }

  predicate StaysApproved(states: seq<Ledger>, k: nat, m: nat, h: string)
    requires k < |states| && m < |states|
  {
    && At(states, k, h).Some? && MintOf(h) <= states[m].minted
    && (At(states, m, h).Some? ==>
          && SameRequest(At(states, k, h).value, At(states, m, h).value)
          && At(states, m, h).value.state == Settled(Approved))
  }

  lemma GrantedStays(env: Env, calls: seq<Call>, states: seq<Ledger>, i: nat, m: nat, h: string)
    requires Ran(env, calls, states) && i < m <= |calls| && Grants(env, states[i], calls[i], h)
    ensures StaysApproved(states, i + 1, m, h)
  {
    GrantedAt(env, calls, states, i, h);
    StaysAfter(env, calls, states, i, m, h);
  }

  lemma StaysAfter(env: Env, calls: seq<Call>, states: seq<Ledger>, i: nat, m: nat, h: string)
    requires Ran(env, calls, states) && i < m <= |calls|
    requires At(states, i + 1, h).Some? && At(states, i + 1, h).value.state == Settled(Approved)
    ensures StaysApproved(states, i + 1, m, h)
  {
    ApprovedStays(env, calls, states, i + 1, m, h);
  }

  /** An approved record stays as it is while it is kept. */
  lemma ApprovedStays(env: Env, calls: seq<Call>, states: seq<Ledger>, k: nat, m: nat, h: string)
    requires Ran(env, calls, states) && k <= m <= |calls|
    requires At(states, k, h).Some? && At(states, k, h).value.state == Settled(Approved)
    ensures StaysApproved(states, k, m, h)
  {
    RunsAreDistinct(env, calls, states, k);
    Known(states[k], h);
    Onward(env, calls, states, k, m, h);
  }

  /** A granted approval settles its record. */
  lemma GrantedAt(env: Env, calls: seq<Call>, states: seq<Ledger>, i: nat, h: string)
    requires Ran(env, calls, states) && i < |calls| && Grants(env, states[i], calls[i], h)
    ensures At(states, i + 1, h).Some? && At(states, i + 1, h).value.state == Settled(Approved)
  {
    AtStep(env, calls, states, i, h);
    GrantedApproval(env, states[i], calls[i], h);
  }

  /** Once an approved record is acknowledged or cancelled with its receipt, no fetch returns anything again. */
  lemma ErasedForGood(env: Env, calls: seq<Call>, states: seq<Ledger>, i: nat, m: nat, j: nat, h: string)
    requires Ran(env, calls, states) && i < m < j < |calls| && Grants(env, states[i], calls[i], h)
    requires At(states, i + 1, h).Some? && Erases(env, calls[m], h, At(states, i + 1, h).value.receiptHash)
    requires calls[j].FetchCall? && calls[j].handle == h
    ensures ReplyAt(env, calls, states, j).results.Err?
  {
    GrantedStays(env, calls, states, i, m, h);
    if At(states, m, h).Some? {
      SettledErasedStays(env, calls, states, m, j, h);
    } else {
      Onward(env, calls, states, m, j, h);
    }
    FetchAnswersNothing(env, calls, states, j);
  }

  lemma FetchAnswersNothing(env: Env, calls: seq<Call>, states: seq<Ledger>, j: nat)
    requires Ran(env, calls, states) && j < |calls| && calls[j].FetchCall?
    requires At(states, j, calls[j].handle).Some? ==> At(states, j, calls[j].handle).value.results.None?
    ensures ReplyAt(env, calls, states, j).results.Err?
  {
    RunsAreDistinct(env, calls, states, j);
    if ReplyAt(env, calls, states, j).results.Ok? {
      FetchesAreResults(env, states[j], calls[j]);
    }
  }

  predicate HasResults(o: Option<Record>) {
    o.Some? && o.value.results.Some?
  }

  /** Results stay what they were from the moment they appear. */
  lemma ResultsAt(env: Env, calls: seq<Call>, states: seq<Ledger>, i: nat, h: string)
    requires Ran(env, calls, states) && i < |calls| && HasResults(At(states, i + 1, h))
    ensures HasResults(At(states, i, h)) ==> At(states, i, h).value.results == At(states, i + 1, h).value.results
  {
    AtStep(env, calls, states, i, h);
    if HasResults(At(states, i, h)) {
      AlwaysSound(env, calls, states, i, h);
      FateFollows(env, states[i], calls[i], h);
    }
  }

  lemma AppearingIsGranted(env: Env, calls: seq<Call>, states: seq<Ledger>, i: nat, h: string)
    requires Ran(env, calls, states) && i < |calls| && HasResults(At(states, i + 1, h)) && !HasResults(At(states, i, h))
    ensures Grants(env, states[i], calls[i], h)
  {
    AtStep(env, calls, states, i, h);
    if At(states, i, h).None? {
      OpenedWithoutResults(env, states[i], calls[i], h);
    } else {
      AlwaysSound(env, calls, states, i, h);
      GrantsAreSignings(env, states[i], calls[i], h);
      FateFollows(env, states[i], calls[i], h);
    }
  }

  lemma {:induction false} ResultsAppeared(env: Env, calls: seq<Call>, states: seq<Ledger>, j: nat, h: string) returns (i: nat)
    requires Ran(env, calls, states) && j <= |calls| && HasResults(At(states, j, h))
    ensures i < j && !HasResults(At(states, i, h)) && HasResults(At(states, i + 1, h))
    ensures At(states, i + 1, h).value.results == At(states, j, h).value.results
  {
    assert j > 0;
    ResultsAt(env, calls, states, j - 1, h);
    if HasResults(At(states, j - 1, h)) {
      i := ResultsAppeared(env, calls, states, j - 1, h);
    } else {
      i := j - 1;
    }
  }

  /** Every list a record holds is the signatures of an earlier granted approval of that handle. */
  lemma ResultsWereGranted(env: Env, calls: seq<Call>, states: seq<Ledger>, j: nat, h: string) returns (i: nat)
    requires Ran(env, calls, states) && j <= |calls| && HasResults(At(states, j, h))
    ensures i < j && Grants(env, states[i], calls[i], h)
    ensures At(states, i + 1, h).Some? && At(states, i + 1, h).value.results == At(states, j, h).value.results
  {
    i := ResultsAppeared(env, calls, states, j, h);
    AppearingIsGranted(env, calls, states, i, h);
  }

  lemma OpenedWithoutResults(env: Env, l: Ledger, c: Call, h: string)
    requires Distinct(l) && Find(l.records, h).None?
    ensures Fate(env, l, c, h).Some? ==> Fate(env, l, c, h).value.results.None?
  {
  }

  predicate Nondecreasing(calls: seq<Call>) {
    forall i, j :: 0 <= i < j < |calls| ==> calls[i].now <= calls[j].now
  }

  /** Dated no earlier than `since`, if at all. */
  predicate SettledSince(o: Option<Record>, outcome: State, since: Time) {
    && o.Some? && o.value.state == outcome && outcome.Settled?
    && (o.value.settledAt.Some? ==> o.value.settledAt.value >= since)
  }

  lemma SettlingIsRecent(env: Env, l: Ledger, c: Call, h: string)
    requires Distinct(l) && Find(l.records, h).Some? && IsLive(Find(l.records, h).value)
    requires Sound(env, Find(l.records, h).value)
    ensures Fate(env, l, c, h).Some?
    ensures !IsLive(Fate(env, l, c, h).value) ==> SettledSince(Fate(env, l, c, h), Fate(env, l, c, h).value.state, c.now)
  {
    NothingOpensOver(env, l, c, h);
    PassingOfTheLive(env, l, c, h);
    ChangeKeepsDates(env, Finds(l, c), c, Passed(env, l, c, h).value);
  }

  lemma NothingOpensOver(env: Env, l: Ledger, c: Call, h: string)
    requires Distinct(l) && Find(l.records, h).Some?
    ensures c.RequestCall? ==> Fate(env, l, c, h) == Passed(env, l, c, h)
  {
    Known(l, h);
    if c.RequestCall? && Opens(env, l, c).Some? {
      OpeningsAreNew(env, l, c);
    }
  }

  lemma PassingOfTheLive(env: Env, l: Ledger, c: Call, h: string)
    requires Find(l.records, h).Some? && IsLive(Find(l.records, h).value) && Find(l.records, h).value.settledAt.None?
    ensures Passed(env, l, c, h).Some?
    ensures
      var x := Passed(env, l, c, h).value;
      x.settledAt == if IsLive(x) then None else Some(c.now)
  {
  }

  lemma PassingOfTheRecent(env: Env, l: Ledger, c: Call, h: string, outcome: State, since: Time)
    requires SettledSince(Find(l.records, h), outcome, since)
    requires since <= c.now < since + SETTLED_RETENTION
    ensures SettledSince(Passed(env, l, c, h), outcome, since)
    ensures SettledSince(Aged(Find(l.records, h), c.now, l.ttl), outcome, since)
  {
  }

  lemma ChangeKeepsDates(env: Env, found: bool, c: Call, r: Record)
    ensures Changed(env, found, c, r).settledAt == r.settledAt
    ensures r.state.Settled? ==> Changed(env, found, c, r).state == r.state
  {
  }

  lemma RecentIsKept(env: Env, l: Ledger, c: Call, h: string, outcome: State, since: Time)
    requires Distinct(l) && SettledSince(Find(l.records, h), outcome, since)
    requires since <= c.now < since + SETTLED_RETENTION
    ensures SettledSince(Fate(env, l, c, h), outcome, since)
    ensures SettledSince(Aged(Find(l.records, h), c.now, l.ttl), outcome, since)
  {
    NothingOpensOver(env, l, c, h);
    PassingOfTheRecent(env, l, c, h, outcome, since);
    ChangeKeepsDates(env, Finds(l, c), c, Passed(env, l, c, h).value);
  }

  lemma {:induction false} RecentStays(env: Env, calls: seq<Call>, states: seq<Ledger>, i: nat, j: nat, h: string, outcome: State, since: Time)
    requires Ran(env, calls, states) && i <= j <= |calls| && SettledSince(At(states, i, h), outcome, since)
    requires forall m :: i <= m < j ==> since <= calls[m].now < since + SETTLED_RETENTION
    ensures SettledSince(At(states, j, h), outcome, since)
  {
    if i < j {
      RecentStays(env, calls, states, i, j - 1, h, outcome, since);
      AtStep(env, calls, states, j - 1, h);
      RecentIsKept(env, states[j - 1], calls[j - 1], h, outcome, since);
    }
  }

  lemma SettledAtThisCall(env: Env, calls: seq<Call>, states: seq<Ledger>, i: nat, h: string)
    requires Ran(env, calls, states) && i < |calls| && At(states, i, h).Some? && IsLive(At(states, i, h).value)
    requires At(states, i + 1, h).None? || !IsLive(At(states, i + 1, h).value)
    ensures At(states, i + 1, h).Some?
    ensures SettledSince(At(states, i + 1, h), At(states, i + 1, h).value.state, calls[i].now)
    ensures MintOf(h) <= states[i].minted
  {
    AtStep(env, calls, states, i, h);
    AlwaysSound(env, calls, states, i, h);
    Known(states[i], h);
    SettlingIsRecent(env, states[i], calls[i], h);
  }

  lemma StatusOfTheRecent(env: Env, l: Ledger, c: Call, outcome: State, since: Time)
    requires Distinct(l) && c.StatusCall? && SettledSince(Find(l.records, c.handle), outcome, since)
    requires since <= c.now < since + SETTLED_RETENTION
    requires Holds(Find(l.records, c.handle), env.sha256(c.receipt))
    ensures Step(env, l, c).1 == Answered(Ok(outcome))
  {
    RepliesOnHandles(env, l, c);
    PassingOfTheRecent(env, l, c, c.handle, outcome, since);
  }

  /**
   A live record never vanishes, and once settled its requester is answered with the outcome
   for the whole retention time.
   */
  lemma OutcomesLast(env: Env, calls: seq<Call>, states: seq<Ledger>, i: nat, j: nat, h: string)
    requires Ran(env, calls, states) && i < j < |calls| && Nondecreasing(calls)
    requires At(states, i, h).Some? && IsLive(At(states, i, h).value)
    requires At(states, i + 1, h).None? || !IsLive(At(states, i + 1, h).value)
    requires calls[j].now < calls[i].now + SETTLED_RETENTION
    requires calls[j].StatusCall? && calls[j].handle == h
    requires env.sha256(calls[j].receipt) == At(states, i, h).value.receiptHash
    ensures At(states, i + 1, h).Some? && At(states, i + 1, h).value.state.Settled?
    ensures ReplyAt(env, calls, states, j) == Answered(Ok(At(states, i + 1, h).value.state))
  {
    SettledAtThisCall(env, calls, states, i, h);
    var outcome, since := At(states, i + 1, h).value.state, calls[i].now;
    RecentStays(env, calls, states, i + 1, j, h, outcome, since);
    Onward(env, calls, states, i, j, h);
    RunsAreDistinct(env, calls, states, j);
    StatusOfTheRecent(env, states[j], calls[j], outcome, since);
  }

  // ---- caps ----------------------------------------------------------------------------

  ghost predicate WithinCaps(rs: seq<Record>) {
    && CountLive(rs) <= MAX_PENDING_TOTAL
    && forall who :: CountLiveOf(rs, who) <= MAX_PENDING_PER_REQUESTER
  }

  lemma {:induction false} SweepFreesRoom(rs: seq<Record>, now: Time, ttl: Time, who: string)
    ensures CountLive(SweepAll(rs, now, ttl)) <= CountLive(rs)
    ensures CountLiveOf(SweepAll(rs, now, ttl), who) <= CountLiveOf(rs, who)
  {
    if rs != [] {
      SweepFreesRoom(rs[1..], now, ttl, who);
      var r, out := SweepRecord(rs[0], now, ttl), SweepAll(rs, now, ttl);
      if Kept(r, now) {
        assert out[0] == r && out[1..] == SweepAll(rs[1..], now, ttl);
      } else {
        assert out == SweepAll(rs[1..], now, ttl);
      }
    }
  }

  predicate NoneRevived(rs: seq<Record>, to: seq<Record>) {
    && |to| == |rs|
    && forall k :: 0 <= k < |rs| ==> to[k].requester == rs[k].requester && (IsLive(to[k]) ==> IsLive(rs[k]))
  }

  lemma {:induction false} RewriteFreesRoom(rs: seq<Record>, to: seq<Record>, who: string)
    requires NoneRevived(rs, to)
    ensures CountLive(to) <= CountLive(rs) && CountLiveOf(to, who) <= CountLiveOf(rs, who)
  {
    if rs != [] {
      RewriteFreesRoom(rs[1..], to[1..], who);
    }
  }

  lemma ErasuresAddNothing(env: Env, l: Ledger, c: Call, who: string)
    requires Erasing(c)
    ensures CountLive(Step(env, l, c).0.records) <= CountLive(l.records)
    ensures CountLiveOf(Step(env, l, c).0.records, who) <= CountLiveOf(l.records, who)
  {
    var i := IndexFor(l.records, c.handle, env.sha256(c.receipt));
    if i < |l.records| {
      var r := Erased(c, l.records[i]);
      RewriteFreesRoom(l.records, l.records[i := r], who);
      SweepFreesRoom(l.records[i := r], c.now, l.ttl, who);
    }
  }

  lemma AcknowledgingRevivesNothing(env: Env, l: Ledger, c: Call)
    requires c.AcknowledgeCall?
    ensures NoneRevived(Swept(l, c.now).records, Step(env, l, c).0.records)
  {
    AcknowledgedRevives(Swept(l, c.now).records, c.handle);
    AcknowledgementLeaves(env, l, c);
  }

  /** What an acknowledgement leaves: the swept list, or that with one on display and no other. */
  lemma AcknowledgementLeaves(env: Env, l: Ledger, c: Call)
    requires c.AcknowledgeCall?
    ensures
      var rs, i, xs := Swept(l, c.now).records, IndexOf(Swept(l, c.now).records, c.handle), Step(env, l, c).0.records;
      xs == rs || xs == Demote(rs, c.handle) || (i < |rs| && IsLive(Demote(rs, c.handle)[i]) && xs == Displayed(rs, c.handle, i))
  {
  }

  function Displayed(rs: seq<Record>, handle: string, i: nat): seq<Record>
    requires i < |rs|
  {
    var xs := Demote(rs, handle);
    xs[i := xs[i].(state := Rendered)]
  }

  lemma AcknowledgedRevives(rs: seq<Record>, handle: string)
    ensures NoneRevived(rs, rs) && NoneRevived(rs, Demote(rs, handle))
    ensures forall i :: 0 <= i < |rs| && IsLive(Demote(rs, handle)[i]) ==> NoneRevived(rs, Displayed(rs, handle, i))
  {
  }

  lemma ApprovingRevivesNothing(env: Env, l: Ledger, c: Call)
    requires c.ApproveCall?
    ensures NoneRevived(Swept(l, c.now).records, Step(env, l, c).0.records)
  {
  }

  lemma DecisionsReviveNothing(env: Env, l: Ledger, c: Call)
    requires c.AcknowledgeCall? || c.ApproveCall? || c.RejectCall?
    ensures NoneRevived(Swept(l, c.now).records, Step(env, l, c).0.records)
  {
    if c.AcknowledgeCall? {
      AcknowledgingRevivesNothing(env, l, c);
    } else if c.ApproveCall? {
      ApprovingRevivesNothing(env, l, c);
    }
  }

  /** A call other than a request rewrites records in place, before or after one sweep. */
  lemma OnlyRequestsAdd(env: Env, l: Ledger, c: Call, who: string)
    requires !c.RequestCall?
    ensures CountLive(Step(env, l, c).0.records) <= CountLive(l.records)
    ensures CountLiveOf(Step(env, l, c).0.records, who) <= CountLiveOf(l.records, who)
  {
    SweepFreesRoom(l.records, c.now, l.ttl, who);
    if Erasing(c) {
      ErasuresAddNothing(env, l, c, who);
    } else if c.AcknowledgeCall? || c.ApproveCall? || c.RejectCall? {
      DecisionsReviveNothing(env, l, c);
      RewriteFreesRoom(Swept(l, c.now).records, Step(env, l, c).0.records, who);
    }
  }

  lemma RequestsStayWithinCaps(env: Env, l: Ledger, c: Call, who: string)
    requires c.RequestCall? && WithinCaps(l.records)
    ensures CountLive(Step(env, l, c).0.records) <= MAX_PENDING_TOTAL
    ensures CountLiveOf(Step(env, l, c).0.records, who) <= MAX_PENDING_PER_REQUESTER
  {
    var s := Swept(l, c.now);
    SweepFreesRoom(l.records, c.now, l.ttl, who);
    if Step(env, l, c).1.r.Ok? {
      CountSnoc(s.records, Opens(env, l, c).value, who);
    } else {
      assert Step(env, l, c).0 == s;
    }
  }

  lemma StepStaysWithinCaps(env: Env, l: Ledger, c: Call)
    requires WithinCaps(l.records)
    ensures WithinCaps(Step(env, l, c).0.records)
  {
    forall who
      ensures CountLive(Step(env, l, c).0.records) <= MAX_PENDING_TOTAL
      ensures CountLiveOf(Step(env, l, c).0.records, who) <= MAX_PENDING_PER_REQUESTER
    {
      if c.RequestCall? {
        RequestsStayWithinCaps(env, l, c, who);
      } else {
        OnlyRequestsAdd(env, l, c, who);
      }
    }
    assert CountLiveOf(Step(env, l, c).0.records, "") <= MAX_PENDING_PER_REQUESTER;
  }

  /** A requester cannot flood the queue: the caps hold after every call. */
  lemma {:induction false} RunsStayWithinCaps(env: Env, calls: seq<Call>, states: seq<Ledger>, n: nat)
    requires Ran(env, calls, states) && n <= |calls|
    ensures WithinCaps(states[n].records)
  {
    if n > 0 {
      RunsStayWithinCaps(env, calls, states, n - 1);
      assert Stepped(env, calls, states, n - 1);
      StepStaysWithinCaps(env, states[n - 1], calls[n - 1]);
    }
  }

  /** Any calls make a run. */
  lemma {:induction false} EveryRunHappens(env: Env, calls: seq<Call>) returns (states: seq<Ledger>)
    ensures Ran(env, calls, states)
  {
    if calls == [] {
      states := [NO_RECORDS];
    } else {
      var n := |calls| - 1;
      var init := EveryRunHappens(env, calls[..n]);
      states := init + [Step(env, init[n], calls[n]).0];
      forall i | 0 <= i < |calls| ensures Stepped(env, calls, states, i) {
        if i < n {
          assert Stepped(env, calls[..n], init, i);
        }
      }
    }
  }
}
