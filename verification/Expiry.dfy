/**
 What time does to the ledger: offers nobody comes for, records on display, settlements.

 Over runs of `Handles`, for `sweep` and the caps of `request` in rust-lib/src/approval.rs. An
 offer lapses with the first call after its time is up and not before; a settlement is answered
 for two minutes and then forgotten; and what has lapsed stands in nobody's way.
 */
module Expiry {
  import opened Base
  import opened Text
  import opened Commitment
  import opened Approval
  import opened Handles
  import opened ApprovalRuns
  import Telling

  // ---- one call ------------------------------------------------------------------------

  /** Every call sweeps, but for one that sets the time and an erasure whose receipt does not match. */
  predicate Sweeps(env: Env, l: Ledger, c: Call) {
    !c.SetTtlCall? && !Mismatched(env, l, c)
  }

  /** An approver who takes this record on display or turns it down, or a requester who takes it back. */
  predicate Claims(c: Call, h: string) {
    (c.AcknowledgeCall? || c.RejectCall? || c.CancelCall?) && c.handle == h
  }

  /** Nobody came for it in time. */
  predicate Lapses(r: Record, now: Time, ttl: Time) {
    r.state == Offered && now > r.offeredAt + ttl
  }

  function Lapsed(r: Record, now: Time): Record {
    r.(state := Settled(ExpiredNoAck), settledAt := Some(now))
  }

  predicate Unsettled(o: Option<Record>) {
    o.Some? && IsLive(o.value) && o.value.settledAt.None? && o.value.results.None?
  }

  lemma OfferedStep(env: Env, l: Ledger, c: Call, h: string)
    requires Distinct(l) && Unsettled(Find(l.records, h)) && Find(l.records, h).value.state == Offered && !Claims(c, h)
    ensures
      var r := Find(l.records, h).value;
      Fate(env, l, c, h) == Some(if Sweeps(env, l, c) && Lapses(r, c.now, l.ttl) then Lapsed(r, c.now) else r)
  {
    NothingOpensOver(env, l, c, h);
    FoundIsItself(l, h);
    OfferPasses(env, l, c, h);
    OffDisplayIsLeft(env, Finds(l, c), c, Passed(env, l, c, h).value);
  }

  lemma OfferPasses(env: Env, l: Ledger, c: Call, h: string)
    requires Unsettled(Find(l.records, h)) && Find(l.records, h).value.state == Offered && !Claims(c, h)
    ensures
      var r := Find(l.records, h).value;
      Passed(env, l, c, h) == Some(if Sweeps(env, l, c) && Lapses(r, c.now, l.ttl) then Lapsed(r, c.now) else r)
  {
  }

  /** No approver's call changes what is not on display, unless it claims it; nor what is settled. */
  lemma OffDisplayIsLeft(env: Env, found: bool, c: Call, r: Record)
    requires r.state.Settled? || (r.state == Offered && !Claims(c, r.handle))
    ensures Changed(env, found, c, r) == r
  {
  }

  lemma FoundIsItself(l: Ledger, h: string)
    ensures Find(l.records, h).Some? ==> Find(l.records, h).value.handle == h
  {
  }

  lemma LiveIsUnsettled(env: Env, calls: seq<Call>, states: seq<Ledger>, i: nat, h: string)
    requires Ran(env, calls, states) && i <= |calls| && At(states, i, h).Some? && IsLive(At(states, i, h).value)
    ensures Distinct(states[i]) && Unsettled(At(states, i, h))
  {
    RunsAreDistinct(env, calls, states, i);
    AlwaysSound(env, calls, states, i, h);
  }

  // ---- offers --------------------------------------------------------------------------

  /** From `i` up to `j` nobody claims the record, and every sweep comes within its time. */
  ghost predicate Waited(env: Env, calls: seq<Call>, states: seq<Ledger>, i: nat, j: nat, h: string, offeredAt: Time)
    requires j <= |calls| < |states|
  {
    forall m {:trigger calls[m]} :: i <= m < j ==>
      !Claims(calls[m], h) && (Sweeps(env, states[m], calls[m]) ==> calls[m].now <= offeredAt + states[m].ttl)
  }

  /** Until its time is up, an offer nobody claims stays exactly as it is. */
  lemma {:induction false} OffersWait(env: Env, calls: seq<Call>, states: seq<Ledger>, i: nat, j: nat, h: string)
    requires Ran(env, calls, states) && i <= j <= |calls| && At(states, i, h).Some? && At(states, i, h).value.state == Offered
    requires Waited(env, calls, states, i, j, h, At(states, i, h).value.offeredAt)
    ensures At(states, j, h) == At(states, i, h)
  {
    if i < j {
      OffersWait(env, calls, states, i, j - 1, h);
      LiveIsUnsettled(env, calls, states, j - 1, h);
      AtStep(env, calls, states, j - 1, h);
      assert !Claims(calls[j - 1], h);
      OfferedStep(env, states[j - 1], calls[j - 1], h);
    }
  }

  lemma StatusOfTheOffered(env: Env, l: Ledger, c: Call)
    requires Distinct(l) && c.StatusCall? && Unsettled(Find(l.records, c.handle)) && Find(l.records, c.handle).value.state == Offered
    ensures
      var r := Find(l.records, c.handle).value;
      Step(env, l, c).1 == Answered(
        if env.sha256(c.receipt) != r.receiptHash then Err(NotFound)
        else Ok(if Lapses(r, c.now, l.ttl) then Settled(ExpiredNoAck) else Offered))
  {
    RepliesOnHandles(env, l, c);
  }

  /**
   An offer nobody claims lapses with the first call after its time is up, and not before: until
   then it is as it was, and its requester is answered that it expired iff its time is up.
   */
  lemma AbandonedOffersExpire(env: Env, calls: seq<Call>, states: seq<Ledger>, i: nat, j: nat, h: string)
    requires Ran(env, calls, states) && i <= j < |calls| && At(states, i, h).Some? && At(states, i, h).value.state == Offered
    requires Waited(env, calls, states, i, j, h, At(states, i, h).value.offeredAt) && !Claims(calls[j], h)
    ensures
      var r, c := At(states, i, h).value, calls[j];
      var late := Sweeps(env, states[j], c) && c.now > r.offeredAt + states[j].ttl;
      && At(states, j, h) == Some(r)
      && At(states, j + 1, h) == Some(if late then r.(state := Settled(ExpiredNoAck), settledAt := Some(c.now)) else r)
      && (c.StatusCall? && c.handle == h && env.sha256(c.receipt) == r.receiptHash ==>
            ReplyAt(env, calls, states, j) == Answered(Ok(if late then Settled(ExpiredNoAck) else Offered)))
  {
    OffersWait(env, calls, states, i, j, h);
    LiveIsUnsettled(env, calls, states, j, h);
    AtStep(env, calls, states, j, h);
    OfferedStep(env, states[j], calls[j], h);
    if calls[j].StatusCall? && calls[j].handle == h {
      StatusOfTheOffered(env, states[j], calls[j]);
    }
  }

  /** How long an offer stands: a minute, unless that was set. */
  lemma {:induction false} AMinuteUnlessSet(env: Env, calls: seq<Call>, states: seq<Ledger>, n: nat)
    requires Ran(env, calls, states) && n <= |calls|
    ensures
      if exists m :: 0 <= m < n && calls[m].SetTtlCall?
      then exists m :: 0 <= m < n && calls[m].SetTtlCall? && states[n].ttl == calls[m].ttl && forall k :: m < k < n ==> !calls[k].SetTtlCall?
      else states[n].ttl == 60 * SECOND
  {
    if n > 0 {
      var c := calls[n - 1];
      AMinuteUnlessSet(env, calls, states, n - 1);
      assert Stepped(env, calls, states, n - 1);
      OnlySettingSets(env, states[n - 1], c);
      if c.SetTtlCall? {
        assert states[n].ttl == calls[n - 1].ttl;
      } else if exists m :: 0 <= m < n - 1 && calls[m].SetTtlCall? {
        var m :| 0 <= m < n - 1 && calls[m].SetTtlCall? && states[n - 1].ttl == calls[m].ttl && forall k :: m < k < n - 1 ==> !calls[k].SetTtlCall?;
        assert calls[m].SetTtlCall? && states[n].ttl == calls[m].ttl && forall k :: m < k < n ==> !calls[k].SetTtlCall?;
      }
    }
  }

  lemma OnlySettingSets(env: Env, l: Ledger, c: Call)
    ensures Step(env, l, c).0.ttl == if c.SetTtlCall? then c.ttl else l.ttl
  {
  }

  // ---- records on display --------------------------------------------------------------

  /** Nobody decides on this record, takes it back, or takes another one on display instead. */
  predicate Undisturbed(c: Call, h: string) {
    && (c.ApproveCall? || c.RejectCall? || c.CancelCall? ==> c.handle != h)
    && (c.AcknowledgeCall? ==> c.handle == h)
  }

  lemma DisplayedStep(env: Env, l: Ledger, c: Call, h: string)
    requires Distinct(l) && Unsettled(Find(l.records, h)) && Find(l.records, h).value.state == Rendered && Undisturbed(c, h)
    ensures Fate(env, l, c, h) == Find(l.records, h)
  {
    NothingOpensOver(env, l, c, h);
    FoundIsItself(l, h);
  }

  /** A record on display never lapses, whatever the clock says. */
  lemma {:induction false} DisplayedNeverExpires(env: Env, calls: seq<Call>, states: seq<Ledger>, i: nat, j: nat, h: string)
    requires Ran(env, calls, states) && i <= j <= |calls| && At(states, i, h).Some? && At(states, i, h).value.state == Rendered
    requires forall m {:trigger calls[m]} :: i <= m < j ==> Undisturbed(calls[m], h)
    ensures At(states, j, h) == At(states, i, h)
  {
    if i < j {
      DisplayedNeverExpires(env, calls, states, i, j - 1, h);
      LiveIsUnsettled(env, calls, states, j - 1, h);
      AtStep(env, calls, states, j - 1, h);
      assert Undisturbed(calls[j - 1], h);
      DisplayedStep(env, states[j - 1], calls[j - 1], h);
    }
  }

  // ---- settlements ---------------------------------------------------------------------

  /** Settled, dated, and with nothing left to collect. */
  predicate Over(o: Option<Record>, since: Time) {
    o.Some? && o.value.state.Settled? && o.value.settledAt == Some(since) && o.value.results.None?
  }

  lemma OverStep(env: Env, l: Ledger, c: Call, h: string, since: Time)
    requires Distinct(l) && Over(Find(l.records, h), since)
    ensures Fate(env, l, c, h) == if Sweeps(env, l, c) && c.now >= since + 120 * SECOND then None else Find(l.records, h)
  {
    NothingOpensOver(env, l, c, h);
    OverPasses(env, l, c, h, since);
    OffDisplayIsLeft(env, Finds(l, c), c, Find(l.records, h).value);
  }

  lemma OverPasses(env: Env, l: Ledger, c: Call, h: string, since: Time)
    requires Over(Find(l.records, h), since)
    ensures Passed(env, l, c, h) == if Sweeps(env, l, c) && c.now >= since + 120 * SECOND then None else Find(l.records, h)
  {
    FoundIsItself(l, h);
  }

  lemma StatusOfTheOver(env: Env, l: Ledger, c: Call, since: Time)
    requires Distinct(l) && c.StatusCall? && Over(Find(l.records, c.handle), since)
    requires env.sha256(c.receipt) == Find(l.records, c.handle).value.receiptHash
    ensures Step(env, l, c).1 == Answered(
      if c.now < since + 120 * SECOND then Ok(Find(l.records, c.handle).value.state) else Err(NotFound))
  {
    RepliesOnHandles(env, l, c);
  }

  lemma {:induction false} OverUntil(env: Env, calls: seq<Call>, states: seq<Ledger>, i: nat, j: nat, h: string, since: Time)
    requires Ran(env, calls, states) && i <= j <= |calls| && Over(At(states, i, h), since)
    ensures At(states, j, h).Some? ==> At(states, j, h) == At(states, i, h)
    ensures (forall m :: i <= m < j ==> calls[m].now < since + 120 * SECOND) ==> At(states, j, h) == At(states, i, h)
  {
    if i < j {
      OverUntil(env, calls, states, i, j - 1, h, since);
      RunsAreDistinct(env, calls, states, i);
      Known(states[i], h);
      Onward(env, calls, states, i, j - 1, h);
      if At(states, j - 1, h).Some? {
        OverOneMore(env, calls, states, j - 1, h, since);
      } else {
        Moves(env, calls, states, j - 1, h);
      }
    }
  }

  lemma OverOneMore(env: Env, calls: seq<Call>, states: seq<Ledger>, j: nat, h: string, since: Time)
    requires Ran(env, calls, states) && j < |calls| && Over(At(states, j, h), since)
    ensures At(states, j + 1, h) ==
      if Sweeps(env, states[j], calls[j]) && calls[j].now >= since + 120 * SECOND then None else At(states, j, h)
  {
    AtStep(env, calls, states, j, h);
    OverStep(env, states[j], calls[j], h, since);
  }

  /**
   A settlement with nothing to collect is answered for two minutes from its date, and from then
   on there is no such record: exactly, as long as clocks do not run back.
   */
  lemma SettlementsAreForgotten(env: Env, calls: seq<Call>, states: seq<Ledger>, i: nat, j: nat, h: string, since: Time)
    requires Ran(env, calls, states) && i <= j < |calls| && Nondecreasing(calls) && Over(At(states, i, h), since)
    requires calls[j].StatusCall? && calls[j].handle == h && env.sha256(calls[j].receipt) == At(states, i, h).value.receiptHash
    ensures ReplyAt(env, calls, states, j) == Answered(
      if calls[j].now < since + 120 * SECOND then Ok(At(states, i, h).value.state) else Err(NotFound))
    ensures calls[j].now >= since + 120 * SECOND ==> At(states, j + 1, h).None?
  {
    OverUntil(env, calls, states, i, j, h, since);
    RunsAreDistinct(env, calls, states, j);
    AtStep(env, calls, states, j, h);
    if At(states, j, h).Some? {
      StatusOfTheOver(env, states[j], calls[j], since);
      OverOneMore(env, calls, states, j, h, since);
    } else {
      RunsAreDistinct(env, calls, states, i);
      Known(states[i], h);
      Onward(env, calls, states, i, j + 1, h);
      RepliesOnHandles(env, states[j], calls[j]);
    }
  }

  /** A settlement is dated by the first sweep that finds it settled. */
  lemma SettlementsAreDated(env: Env, calls: seq<Call>, states: seq<Ledger>, i: nat, h: string)
    requires Ran(env, calls, states) && i < |calls| && Sweeps(env, states[i], calls[i])
    requires At(states, i, h).Some? && At(states, i, h).value.state.Settled? && At(states, i, h).value.settledAt.None?
    ensures At(states, i + 1, h).Some? && At(states, i + 1, h).value.settledAt == Some(calls[i].now)
  {
    AtStep(env, calls, states, i, h);
    RunsAreDistinct(env, calls, states, i);
    NothingOpensOver(env, states[i], calls[i], h);
    ChangeKeepsDates(env, Finds(states[i], calls[i]), calls[i], Passed(env, states[i], calls[i], h).value);
  }

  // ---- room ----------------------------------------------------------------------------

  /** Still before an approver, or waiting for one with time left. */
  predicate Waits(r: Record, now: Time, ttl: Time) {
    r.state == Rendered || (r.state == Offered && now <= r.offeredAt + ttl)
  }

  /** How many records wait: one requester's, or everybody's. */
  function Waiting(rs: seq<Record>, now: Time, ttl: Time, who: Option<string>): nat {
    if rs == [] then 0
    else
      (if Waits(rs[0], now, ttl) && (who.None? || rs[0].requester == who.value) then 1 else 0) + Waiting(rs[1..], now, ttl, who)
  }

  predicate OnlySettledAreDated(rs: seq<Record>) {
    forall k :: 0 <= k < |rs| ==> (rs[k].settledAt.Some? ==> rs[k].state.Settled?)
  }

  lemma {:induction false} LiveAreWaiting(rs: seq<Record>, now: Time, ttl: Time, who: string)
    requires OnlySettledAreDated(rs)
    ensures CountLive(SweepAll(rs, now, ttl)) == Waiting(rs, now, ttl, None)
    ensures CountLiveOf(SweepAll(rs, now, ttl), who) == Waiting(rs, now, ttl, Some(who))
  {
    if rs != [] {
      LiveAreWaiting(rs[1..], now, ttl, who);
      CountsAdd(SweepOne(rs[0], now, ttl), SweepAll(rs[1..], now, ttl), who);
      OneWaits(rs[0], now, ttl, who);
    }
  }

  lemma OneWaits(r: Record, now: Time, ttl: Time, who: string)
    requires r.settledAt.Some? ==> r.state.Settled?
    ensures CountLive(SweepOne(r, now, ttl)) == if Waits(r, now, ttl) then 1 else 0
    ensures CountLiveOf(SweepOne(r, now, ttl), who) == if Waits(r, now, ttl) && r.requester == who then 1 else 0
  {
  }

  lemma CountsAdd(one: seq<Record>, rest: seq<Record>, who: string)
    requires |one| <= 1
    ensures CountLive(one + rest) == CountLive(one) + CountLive(rest)
    ensures CountLiveOf(one + rest, who) == CountLiveOf(one, who) + CountLiveOf(rest, who)
  {
    if one == [] {
      assert one + rest == rest;
    } else {
      assert (one + rest)[1..] == rest && one[1..] == [];
    }
  }

  /** What a submission must be, apart from there being room for it. */
  ghost predicate WellFormed(size: nat, parsed: Option<Intent>) {
    && size <= 64 * 1024 && parsed.Some? && parsed.value.legs != []
    && Displayable(parsed.value.purpose) && Telling.AllShowable(parsed.value.legs)
  }

  lemma RenderedExactly(env: Env, intent: Intent, bundleId: Hash)
    ensures RenderLines(env, intent, bundleId).Ok? <==> Telling.AllShowable(intent.legs)
    ensures RenderLines(env, intent, bundleId).Err? ==> RenderLines(env, intent, bundleId) == Err(InvalidParams)
  {
    Telling.LegsShownExactly(env, intent.legs);
  }

  lemma RoomOnSwept(env: Env, l: Ledger, c: Call)
    requires c.RequestCall?
    ensures
      var rs := SweepAll(l.records, c.now, l.ttl);
      Step(env, l, c).1.r.Ok? <==> WellFormed(c.size, c.parsed) && CountLive(rs) < 16 && CountLiveOf(rs, c.requester) < 4
    ensures Step(env, l, c).1.r.Err? ==> Step(env, l, c).1.r == Err(InvalidParams)
  {
    if c.parsed.Some? {
      RenderedExactly(env, c.parsed.value, CommitmentOf(env, c.parsed.value));
    }
  }

  /**
   In every run a request is taken up iff it is well-formed, fewer than sixteen records wait, and
   fewer than four of its requester's: what lapsed or was settled is in nobody's way.
   */
  lemma RequestsAreTakenUpExactly(env: Env, calls: seq<Call>, states: seq<Ledger>, i: nat)
    requires Ran(env, calls, states) && i < |calls| && calls[i].RequestCall?
    ensures
      var l, c := states[i], calls[i];
      ReplyAt(env, calls, states, i).r.Ok? <==>
        && WellFormed(c.size, c.parsed)
        && Waiting(l.records, c.now, l.ttl, None) < 16 && Waiting(l.records, c.now, l.ttl, Some(c.requester)) < 4
    ensures ReplyAt(env, calls, states, i).r.Err? ==> ReplyAt(env, calls, states, i).r == Err(InvalidParams)
  {
    var l, c := states[i], calls[i];
    RecordsAreSound(env, calls, states, i);
    forall k | 0 <= k < |l.records| ensures l.records[k].settledAt.Some? ==> l.records[k].state.Settled? {
      assert Sound(env, l.records[k]);
    }
    LiveAreWaiting(l.records, c.now, l.ttl, c.requester);
    RoomOnSwept(env, l, c);
  }

  lemma {:induction false} NoneWait(rs: seq<Record>, now: Time, ttl: Time, who: Option<string>)
    requires forall k :: 0 <= k < |rs| && (who.None? || rs[k].requester == who.value) ==> rs[k].state != Rendered
    requires forall k :: 0 <= k < |rs| && (who.None? || rs[k].requester == who.value) && rs[k].state == Offered ==> now > rs[k].offeredAt + ttl
    ensures Waiting(rs, now, ttl, who) == 0
  {
    if rs != [] {
      NoneWait(rs[1..], now, ttl, who);
    }
  }

  /** A requester whose own offers have all lapsed is not kept out by them, however many they were. */
  lemma TheLapsedKeepNobodyOut(env: Env, calls: seq<Call>, states: seq<Ledger>, i: nat)
    requires Ran(env, calls, states) && i < |calls| && calls[i].RequestCall? && WellFormed(calls[i].size, calls[i].parsed)
    requires forall k :: 0 <= k < |states[i].records| && states[i].records[k].requester == calls[i].requester ==>
      || states[i].records[k].state.Settled?
      || (states[i].records[k].state == Offered && calls[i].now > states[i].records[k].offeredAt + states[i].ttl)
    ensures ReplyAt(env, calls, states, i).r.Ok? <==> Waiting(states[i].records, calls[i].now, states[i].ttl, None) < 16
  {
    RequestsAreTakenUpExactly(env, calls, states, i);
    NoneWait(states[i].records, calls[i].now, states[i].ttl, Some(calls[i].requester));
  }
}
