/**
 When each call of the ledger is granted, and what it has then done.

 Over runs of `Handles`, for `acknowledge`, `approve`, `reject`, `status`, `fetch_result`,
 `ack_result` and `cancel` of rust-lib/src/approval.rs: the answer of every call, and what it
 leaves of its own record, in terms of what the record stood at by the clock of the call.
 */
module Decisions {
  import opened Base
  import opened Text
  import opened TxForm
  import opened Commitment
  import opened Approval
  import opened Handles
  import opened ApprovalRuns
  import opened Expiry
  import Telling
  import Lines = Shown

  /** Nothing to collect, and two minutes gone since it was settled. */
  predicate Forgotten(r: Record, now: Time) {
    r.settledAt.Some? && r.results.None? && now >= r.settledAt.value + 120 * SECOND
  }

  /** What a record stands at when the clock reads `now`: lapsed, forgotten, dated, or as it was. */
  function Standing(o: Option<Record>, now: Time, ttl: Time): Option<Record> {
    match o
    case None => None
    case Some(r) =>
      if Lapses(r, now, ttl) then Some(Lapsed(r, now))
      else if Forgotten(r, now) then None
      else if r.state.Settled? && r.settledAt.None? then Some(r.(settledAt := Some(now)))
      else o
  }

  lemma AgedIsStanding(o: Option<Record>, now: Time, ttl: Time)
    requires o.Some? && o.value.settledAt.Some? ==> o.value.state.Settled?
    ensures Aged(o, now, ttl) == Standing(o, now, ttl)
  {
  }

  function StandingAt(calls: seq<Call>, states: seq<Ledger>, i: nat, h: string): Option<Record>
    requires i < |calls| < |states|
  {
    Standing(At(states, i, h), calls[i].now, states[i].ttl)
  }

  lemma StandsAt(env: Env, calls: seq<Call>, states: seq<Ledger>, i: nat, h: string)
    requires Ran(env, calls, states) && i < |calls|
    ensures Distinct(states[i]) && Aged(At(states, i, h), calls[i].now, states[i].ttl) == StandingAt(calls, states, i, h)
    ensures StandingAt(calls, states, i, h).Some? ==>
      At(states, i, h).Some? && StandingAt(calls, states, i, h).value.handle == h
    ensures At(states, i + 1, h) == Fate(env, states[i], calls[i], h)
  {
    AtStep(env, calls, states, i, h);
    FoundIsItself(states[i], h);
    if At(states, i, h).Some? {
      AlwaysSound(env, calls, states, i, h);
    }
    AgedIsStanding(At(states, i, h), calls[i].now, states[i].ttl);
  }

  // ---- an approver's calls -------------------------------------------------------------

  /**
   An acknowledgement is granted iff the record is there and waits; it is then the one on display,
   and returned as it was requested. Every other that was on display waits again, even if it is refused.
   */
  lemma AcknowledgedExactly(env: Env, calls: seq<Call>, states: seq<Ledger>, i: nat, g: string)
    requires Ran(env, calls, states) && i < |calls| && calls[i].AcknowledgeCall?
    ensures
      var h := calls[i].handle;
      var o, other := StandingAt(calls, states, i, h), StandingAt(calls, states, i, g);
      && ReplyAt(env, calls, states, i) == Shown(
           if o.None? then Err(NotFound)
           else if o.value.state.Settled? then Err(InvalidParams)
           else Ok(View(h, HexOfBytes(o.value.bundleId), o.value.requester, o.value.claimLines, o.value.renderLines)))
      && (g == h ==> At(states, i + 1, h) == if o.None? || o.value.state.Settled? then o else Some(o.value.(state := Rendered)))
      && (g != h ==>
            At(states, i + 1, g) == if o.Some? && other.Some? && other.value.state == Rendered then Some(other.value.(state := Offered)) else other)
  {
    var h := calls[i].handle;
    StandsAt(env, calls, states, i, h);
    StandsAt(env, calls, states, i, g);
    DecisionsOnHandles(env, states[i], calls[i]);
  }

  /**
   A record that was on display and made way for another lapses with the next call, once its time
   is up since it was offered: it is then answered as one nobody acknowledged, though somebody did.
   */
  lemma DisplacedRecordsLapse(env: Env, calls: seq<Call>, states: seq<Ledger>, i: nat, h: string)
    requires Ran(env, calls, states) && i + 1 < |calls| && At(states, i, h).Some? && At(states, i, h).value.state == Rendered
    requires calls[i].AcknowledgeCall? && calls[i].handle != h && StandingAt(calls, states, i, calls[i].handle).Some?
    requires Sweeps(env, states[i + 1], calls[i + 1]) && !Claims(calls[i + 1], h)
    requires calls[i + 1].now > At(states, i, h).value.offeredAt + states[i + 1].ttl
    ensures At(states, i + 1, h) == Some(At(states, i, h).value.(state := Offered))
    ensures At(states, i + 2, h).Some? && At(states, i + 2, h).value.state == Settled(ExpiredNoAck)
  {
    LiveIsUnsettled(env, calls, states, i, h);
    AcknowledgedExactly(env, calls, states, i, h);
    AbandonedOffersExpire(env, calls, states, i + 1, i + 1, h);
  }

  /** The signature each leg gets, if every leg gets one. */
  ghost predicate SignsAll(env: Env, signer: Signer, legs: seq<Leg>, results: seq<string>) {
    && |results| == |legs|
    && forall m {:trigger legs[m]} :: 0 <= m < |legs| ==>
      PayloadOf(legs[m]).Ok? && env.sign(signer, PayloadOf(legs[m]).value) == Ok(results[m])
  }

  lemma {:induction false} CollectsExactly(f: Leg -> Result<string>, legs: seq<Leg>, results: seq<string>)
    ensures Collect(f, legs) == Ok(results) <==> |results| == |legs| && forall m :: 0 <= m < |legs| ==> f(legs[m]) == Ok(results[m])
  {
    if |results| == |legs| && legs != [] {
      var n := |legs| - 1;
      CollectsExactly(f, legs[..n], results[..n]);
      assert results == results[..n] + [results[n]];
      if Collect(f, legs) == Ok(results) {
        CollectInOrder(f, legs);
      } else if forall m :: 0 <= m < |legs| ==> f(legs[m]) == Ok(results[m]) {
        assert f(legs[n]) == Ok(results[n]);
      }
    } else if Collect(f, legs) == Ok(results) {
      CollectInOrder(f, legs);
    }
  }

  lemma SignaturesExactly(env: Env, signer: Signer, legs: seq<Leg>, results: seq<string>)
    ensures SignLegs(env, signer, legs) == Ok(results) <==> SignsAll(env, signer, legs, results)
  {
    var f := leg => SignLeg(env, signer, leg);
    CollectsExactly(f, legs, results);
    assert forall m :: 0 <= m < |legs| && |results| == |legs| ==>
      (f(legs[m]) == Ok(results[m]) <==> PayloadOf(legs[m]).Ok? && env.sign(signer, PayloadOf(legs[m]).value) == Ok(results[m]));
  }

  /** All an approval needs: this record on display, its own id echoed, the account's vault, and each leg signable. */
  ghost predicate CanApprove(env: Env, r: Record, c: Call, results: seq<string>)
    requires c.ApproveCall?
  {
    && r.state == Rendered && Echoed(c.echo) == HexOfBytes(CommitmentOf(env, r.intent))
    && c.vaults(r.intent.address, c.password).Ok?
    && SignsAll(env, c.vaults(r.intent.address, c.password).value, r.intent.legs, results)
  }

  lemma SigningExactly(env: Env, r: Record, c: Call, results: seq<string>)
    requires c.ApproveCall? && r.bundleId == CommitmentOf(env, r.intent)
    ensures Signing(env.(signerFor := c.vaults), r, c.echo, c.password) == Ok(results) <==> CanApprove(env, r, c, results)
  {
    var with := env.(signerFor := c.vaults);
    assert CommitmentOf(with, r.intent) == CommitmentOf(env, r.intent);
    var signer := c.vaults(r.intent.address, c.password);
    if signer.Ok? {
      SignaturesExactly(with, signer.value, r.intent.legs, results);
      assert SignsAll(with, signer.value, r.intent.legs, results) == SignsAll(env, signer.value, r.intent.legs, results);
    }
  }

  /**
   An approval is granted iff it can be, and then these signatures are what the record holds; it
   is refused without a trace otherwise. That the commitment drifted never happens.
   */
  lemma ApprovedExactly(env: Env, calls: seq<Call>, states: seq<Ledger>, i: nat, results: seq<string>)
    requires Ran(env, calls, states) && i < |calls| && calls[i].ApproveCall?
    ensures
      var c, o := calls[i], StandingAt(calls, states, i, calls[i].handle);
      && (o.Some? && CanApprove(env, o.value, c, results) ==>
            && ReplyAt(env, calls, states, i) == Signed(Ok(|results|))
            && At(states, i + 1, c.handle) == Some(o.value.(results := Some(results), state := Settled(Approved))))
      && (o.None? ==> ReplyAt(env, calls, states, i) == Signed(Err(NotFound)))
  {
    var c, o := calls[i], StandingAt(calls, states, i, calls[i].handle);
    StandsAt(env, calls, states, i, c.handle);
    DecisionsOnHandles(env, states[i], c);
    if o.Some? {
      StandingIsSound(env, calls, states, i, c.handle);
      SigningExactly(env, o.value, c, results);
    }
  }

  lemma StandingIsSound(env: Env, calls: seq<Call>, states: seq<Ledger>, i: nat, h: string)
    requires Ran(env, calls, states) && i < |calls| && StandingAt(calls, states, i, h).Some?
    ensures StandingAt(calls, states, i, h).value.bundleId == CommitmentOf(env, StandingAt(calls, states, i, h).value.intent)
  {
    AlwaysSound(env, calls, states, i, h);
  }

  lemma ApprovalsNeed(env: Env, calls: seq<Call>, states: seq<Ledger>, i: nat) returns (results: seq<string>)
    requires Ran(env, calls, states) && i < |calls| && calls[i].ApproveCall?
    ensures
      var c, o := calls[i], StandingAt(calls, states, i, calls[i].handle);
      && (ReplyAt(env, calls, states, i).count.Ok? ==> o.Some? && CanApprove(env, o.value, c, results))
      && (ReplyAt(env, calls, states, i).count.Err? ==> At(states, i + 1, c.handle) == o)
  {
    var c, o := calls[i], StandingAt(calls, states, i, calls[i].handle);
    results := [];
    StandsAt(env, calls, states, i, c.handle);
    DecisionsOnHandles(env, states[i], c);
    if o.Some? && Signing(env.(signerFor := c.vaults), o.value, c.echo, c.password).Ok? {
      results := Signing(env.(signerFor := c.vaults), o.value, c.echo, c.password).value;
      StandingIsSound(env, calls, states, i, c.handle);
      SigningExactly(env, o.value, c, results);
    }
  }

  lemma RejectReplies(env: Env, l: Ledger, c: Call)
    requires Distinct(l) && c.RejectCall?
    ensures Step(env, l, c).1 == Done(
      var o := Aged(Find(l.records, c.handle), c.now, l.ttl);
      if o.None? then Err(NotFound) else if o.value.state.Settled? then Err(InvalidParams) else Ok(()))
  {
    FindSwept(l, c.now, c.handle);
  }

  /** A record can be turned down iff it is there and not settled, and then that is its outcome. */
  lemma RejectedExactly(env: Env, calls: seq<Call>, states: seq<Ledger>, i: nat)
    requires Ran(env, calls, states) && i < |calls| && calls[i].RejectCall?
    ensures
      var h, o := calls[i].handle, StandingAt(calls, states, i, calls[i].handle);
      && ReplyAt(env, calls, states, i) == Done(
           if o.None? then Err(NotFound) else if o.value.state.Settled? then Err(InvalidParams) else Ok(()))
      && At(states, i + 1, h) == if o.None? || o.value.state.Settled? then o else Some(o.value.(state := Settled(Rejected)))
  {
    StandsAt(env, calls, states, i, calls[i].handle);
    RejectReplies(env, states[i], calls[i]);
  }

  // ---- a requester's calls -------------------------------------------------------------

  /** The receipt that came with the handle. */
  predicate Entitled(env: Env, o: Option<Record>, receipt: string) {
    o.Some? && env.sha256(receipt) == o.value.receiptHash
  }

  /** The two calls that only look: what the record stands at is answered to the receipt's holder alone. */
  lemma LooksExactly(env: Env, calls: seq<Call>, states: seq<Ledger>, i: nat)
    requires Ran(env, calls, states) && i < |calls| && (calls[i].StatusCall? || calls[i].FetchCall?)
    ensures
      var c, o := calls[i], StandingAt(calls, states, i, calls[i].handle);
      && (c.StatusCall? ==> ReplyAt(env, calls, states, i) == Answered(
            if Entitled(env, o, c.receipt) then Ok(o.value.state) else Err(NotFound)))
      && (c.FetchCall? ==> ReplyAt(env, calls, states, i) == Fetched(
            if !Entitled(env, o, c.receipt) then Err(NotFound)
            else if o.value.results.None? then Err(InvalidParams)
            else Ok(o.value.results.value)))
      && At(states, i + 1, c.handle) == o
  {
    StandsAt(env, calls, states, i, calls[i].handle);
    RepliesOnHandles(env, states[i], calls[i]);
  }

  /** What the two calls that erase leave of a record: no results, and a live one that is taken back is cancelled. */
  function GivenUp(r: Record, cancelled: bool): Record {
    r.(results := None, state := if cancelled && !r.state.Settled? then Settled(Cancelled) else r.state)
  }

  /**
   An acknowledged or cancelled record, for the receipt's holder: its results are erased first and
   the clock is looked at after, so that a settlement past its time is gone with them.
   */
  lemma ErasedExactly(env: Env, calls: seq<Call>, states: seq<Ledger>, i: nat)
    requires Ran(env, calls, states) && i < |calls| && (calls[i].AckCall? || calls[i].CancelCall?)
    ensures
      var c, o := calls[i], At(states, i, calls[i].handle);
      && ReplyAt(env, calls, states, i) == Done(if Entitled(env, o, c.receipt) then Ok(()) else Err(NotFound))
      && At(states, i + 1, c.handle) ==
           if Entitled(env, o, c.receipt) then Standing(Some(GivenUp(o.value, c.CancelCall?)), c.now, states[i].ttl) else o
  {
    var c, o := calls[i], At(states, i, calls[i].handle);
    StandsAt(env, calls, states, i, c.handle);
    ErasureReplies(env, states[i], c);
    ErasureLeaves(env, states[i], c);
    if Entitled(env, o, c.receipt) {
      AlwaysSound(env, calls, states, i, c.handle);
      AgedIsStanding(Some(GivenUp(o.value, c.CancelCall?)), c.now, states[i].ttl);
    }
  }

  lemma ErasureReplies(env: Env, l: Ledger, c: Call)
    requires Distinct(l) && Erasing(c)
    ensures Step(env, l, c).1 == Done(if Entitled(env, Find(l.records, c.handle), c.receipt) then Ok(()) else Err(NotFound))
  {
    RepliesOnHandles(env, l, c);
  }

  lemma ErasureLeaves(env: Env, l: Ledger, c: Call)
    requires Erasing(c)
    ensures
      var o := Find(l.records, c.handle);
      Fate(env, l, c, c.handle) == if Entitled(env, o, c.receipt) then Aged(Some(GivenUp(o.value, c.CancelCall?)), c.now, l.ttl) else o
  {
  }

  // ---- a request -----------------------------------------------------------------------

  /** What is handed out: the handle from one draw of random bits, the receipt from another, both with the count. */
  lemma RequestsHandOut(env: Env, calls: seq<Call>, states: seq<Ledger>, i: nat)
    requires Ran(env, calls, states) && i < |calls| && calls[i].RequestCall? && ReplyAt(env, calls, states, i).r.Ok?
    ensures
      var c, n := calls[i], states[i].minted + 1;
      && states[i + 1].minted == n
      && ReplyAt(env, calls, states, i).r.value ==
           ("ksh_" + (HexOfBytes(c.random) + Numeral(n, 16)), "ksc_" + (HexOfBytes(c.secret) + Numeral(n, 16)))
  {
    assert Stepped(env, calls, states, i);
  }

  /** A new record waits from the instant it was read, under what was submitted, with nothing signed. */
  lemma RequestedExactly(env: Env, calls: seq<Call>, states: seq<Ledger>, i: nat)
    requires Ran(env, calls, states) && i < |calls| && calls[i].RequestCall? && ReplyAt(env, calls, states, i).r.Ok?
    ensures
      var c, (h, receipt) := calls[i], ReplyAt(env, calls, states, i).r.value;
      && c.parsed.Some? && At(states, i, h).None? && At(states, i + 1, h).Some?
      && var r := At(states, i + 1, h).value;
      && r.requester == c.requester && r.intent == c.parsed.value && r.receiptHash == env.sha256(receipt)
      && r.bundleId == CommitmentOf(env, r.intent) && r.state == Offered && r.offeredAt == c.offeredAt
      && r.settledAt.None? && r.results.None?
  {
    var l, c, h := states[i], calls[i], ReplyAt(env, calls, states, i).r.value.0;
    AtStep(env, calls, states, i, h);
    OpeningsAreNew(env, l, c);
    if At(states, i, h).Some? {
      Known(l, h);
    }
  }

  // ---- what is echoed and handed out ---------------------------------------------------

  function Marks(n: nat): string {
    if n == 0 then "" else "0x" + Marks(n - 1)
  }

  lemma {:induction false} MarksGo(s: string) returns (n: nat)
    ensures s == Marks(n) + TrimStartMatches(s, "0x") && !StartsWith(TrimStartMatches(s, "0x"), "0x")
  {
    n := 0;
    if StartsWith(s, "0x") {
      var m := MarksGo(s[2..]);
      n := m + 1;
      assert s == "0x" + s[2..];
    }
  }

  lemma {:induction false} MarksAreTaken(n: nat, rest: string)
    requires !StartsWith(rest, "0x")
    ensures TrimStartMatches(Marks(n) + rest, "0x") == rest
  {
    if n > 0 {
      var s := Marks(n) + rest;
      MarksAreTaken(n - 1, rest);
      assert s == "0x" + (Marks(n - 1) + rest);
      assert s[..2] == "0x" && s[2..] == Marks(n - 1) + rest;
    } else {
      assert Marks(0) + rest == rest;
    }
  }

  /** An echo is the id it was shown, up to white space around it and any number of `0x` in front. */
  lemma EchoedExactly(echo: string, id: Hash)
    ensures Echoed(echo) == HexOfBytes(id) <==> exists n :: Trim(echo) == Marks(n) + HexOfBytes(id)
  {
    IdsAreUnmarked(id);
    var n := MarksGo(Trim(echo));
    if m :| Trim(echo) == Marks(m) + HexOfBytes(id) {
      MarksAreTaken(m, HexOfBytes(id));
    }
  }

  lemma IdsAreUnmarked(id: Hash)
    ensures !StartsWith(HexOfBytes(id), "0x")
  {
    var h := HexOfBytes(id);
    DigitRoundTrip((id[0] as nat) % 16);
    Lines.MarkShows(h);
    assert |h| >= 2 && DigitValue(h[1]) < 16;
  }

  /** A token is told by its random bits and its count, so nobody's receipt is another's, nor a handle. */
  lemma TokensDiffer(random: Bits, counter: nat, other: Bits, count: nat)
    ensures HandleOf(random, counter) != ReceiptOf(other, count)
    ensures ReceiptOf(random, counter) == ReceiptOf(other, count) ==> random == other && counter == count
    ensures HandleOf(random, counter) == HandleOf(other, count) ==> random == other && counter == count
  {
    assert HandleOf(random, counter)[2] == 'h' && ReceiptOf(other, count)[2] == 'c';
    HexOfBytesLength(random);
    HexOfBytesLength(other);
    var t, u := TokenHex(random, counter), TokenHex(other, count);
    assert HandleOf(random, counter)[4..] == t && HandleOf(other, count)[4..] == u;
    assert ReceiptOf(random, counter)[4..] == t && ReceiptOf(other, count)[4..] == u;
    assert t[..32] == HexOfBytes(random) && u[..32] == HexOfBytes(other);
    assert t[32..] == Numeral(counter, 16) && u[32..] == Numeral(count, 16);
    if t == u {
      NumeralInjective(counter, count, 16);
      BytesArePrintedOnce(random, other);
    }
  }

  lemma BytesArePrintedOnce(a: seq<bv8>, b: seq<bv8>)
    requires HexOfBytes(a) == HexOfBytes(b)
    ensures a == b
  {
    Telling.HexSpells(a);
    Telling.HexSpells(b);
    var x, y := Telling.Numbers(a), Telling.Numbers(b);
    assert x == y && |a| == |x| && |b| == |y|;
    forall i | 0 <= i < |a| ensures a[i] == b[i] {
      assert x[i] == y[i];
    }
  }
}
