/**
 The approval ledger: requests waiting for a human, what each of them was shown, and what
 became of it.

 Models `Approvals` of rust-lib/src/approval.rs. Every entry point takes the instants the
 source reads from the clock. `Ledger` is the state as a value, with one function per entry
 point; the class updates its record list in place and is proved against those functions.
 */
module Approval {
  import opened Base
  import opened Text
  import opened TxForm
  import opened Commitment

  /** Instants and durations, in nanoseconds. */
  type Time = nat

  const SECOND: Time := 1_000_000_000
  const ABANDONED_OFFER_TTL: Time := 60 * SECOND
  const SETTLED_RETENTION: Time := 120 * SECOND
  const MAX_PENDING_PER_REQUESTER: nat := 4
  const MAX_PENDING_TOTAL: nat := 16
  const MAX_INTENT_BYTES: nat := 64 * 1024

  /** 128 random bits. */
  type Bits = b: seq<bv8> | |b| == 16 witness seq(16, _ => 0 as bv8)

  /** A SHA-256 digest. */
  type Hash = h: seq<bv8> | |h| == 32 witness seq(32, _ => 0 as bv8)

  datatype Signer = Signer(key: nat)

  /** The libraries: the hash, the character encoding, the case fold, a vault opened for one operation, and signing. */
  datatype Env = Env(
    sha256: string -> Hash,
    utf8: string -> seq<bv8>,
    lower: string -> string,
    signerFor: (string, string) -> Result<Signer>,
    sign: (Signer, Payload) -> Result<string>)

  datatype Outcome = Approved | Rejected | ExpiredNoAck | Cancelled

  datatype State = Offered | Rendered | Settled(outcome: Outcome)

  datatype Record = Record(
    handle: string,
    receiptHash: Hash,
    requester: string,
    intent: Intent,
    bundleId: Hash,
    claimLines: seq<string>,
    renderLines: seq<string>,
    state: State,
    offeredAt: Time,
    settledAt: Option<Time>,
    results: Option<seq<string>>)

  /** What `acknowledge` hands an approver. */
  datatype View = View(
    handle: string,
    bundleId: string,
    requester: string,
    claimLines: seq<string>,
    renderLines: seq<string>)

  datatype Ledger = Ledger(records: seq<Record>, minted: nat, ttl: Time)

  const NO_RECORDS: Ledger := Ledger([], 0, ABANDONED_OFFER_TTL)

  // ---- commitment and render -----------------------------------------------------------

  function CommitmentOf(env: Env, intent: Intent): Hash {
    env.sha256(Encode(env.lower, intent))
  }

  function HexOfBytes(bytes: seq<bv8>): string {
    if bytes == [] then ""
    else [DigitChar((bytes[0] as nat) / 16), DigitChar((bytes[0] as nat) % 16)] + HexOfBytes(bytes[1..])
  }

  /** `norm_num`: a hex quantity that fits is shown with its decimal value beside it. */
  function NormNum(s: string): string {
    var t := Trim(s);
    if t == "" then "0"
    else
      match StripHexMark(t)
      case None => t
      case Some(h) =>
        match ParseUnsigned(h, 16, U128_LIMIT)
        case Some(v) => t + " (" + Dec(v) + ")"
        case None => t
  }

  /** What a line below an item's heading is set in by. */
  const INDENT: string := "      "

  function RecipientLine(tx: UnsignedTx): string {
    if ToText(tx) != "" then INDENT + "To: " + ToText(tx) else INDENT + "** CONTRACT CREATION \U{2014} no recipient **"
  }

  /** The full calldata, never elided. */
  function DataLines(data: string): seq<string> {
    var t := Trim(data);
    if t == "" || t == "0x" then [INDENT + "Data: (none)"]
    else
      var d := TrimStartMatches(t, "0x");
      (if |d| >= 8 then [INDENT + "Selector: 0x" + d[..8]] else []) + [INDENT + "Data: 0x" + d]
  }

  function LegLines(env: Env, n: nat, leg: Leg): Result<seq<string>> {
    var item := "  [" + Dec(n) + "] ";
    match leg
    case Tx(chainId, tx) =>
      Ok([item + "Transaction on chain " + Dec(chainId), RecipientLine(tx), INDENT + "Value: " + NormNum(tx.value),
          INDENT + "Nonce: " + NormNum(tx.nonce), INDENT + "Gas limit: " + NormNum(tx.gasLimit)] + DataLines(tx.data))
    case Message(text) =>
      if !Displayable(text) then Err(InvalidParams)
      else Ok([item + "Sign text message", INDENT + "Text: " + text, INDENT + "Bytes: 0x" + HexOfBytes(env.utf8(text))])
    case Digest(digest, purpose) =>
      if !Displayable(purpose) then Err(InvalidParams)
      else Ok([item + "Sign an OPAQUE 32-byte digest", INDENT + "Purpose (claimed by the requester): " + purpose,
               INDENT + "Digest: " + Trim(digest), INDENT + "This signer cannot show you what this authorises."])
  }

  /** Items are numbered from one. The first leg that may not be shown stops the render. */
  function LegsLines(env: Env, legs: seq<Leg>): Result<seq<string>> {
    if legs == [] then Ok([])
    else
      var init :- LegsLines(env, legs[..|legs| - 1]);
      var last :- LegLines(env, |legs|, legs[|legs| - 1]);
      Ok(init + last)
  }

  function ClaimLines(intent: Intent): seq<string> {
    if Trim(intent.purpose) == "" then [] else ["Purpose (claimed by the requester): " + Trim(intent.purpose)]
  }

  /** The lines an approver shows, built from the same parsed intent that is signed. */
  function RenderLines(env: Env, intent: Intent, bundleId: Hash): Result<seq<string>> {
    var legs :- LegsLines(env, intent.legs);
    Ok(["Account: " + Trim(intent.address), "Commitment: " + HexOfBytes(bundleId),
        Dec(|intent.legs|) + " item(s) to sign:"] + legs)
  }

  /** Once it has stopped it stays stopped. */
  lemma {:induction false} LegsLinesStop(env: Env, legs: seq<Leg>, k: nat)
    requires k <= |legs| && LegsLines(env, legs[..k]).Err?
    ensures LegsLines(env, legs) == LegsLines(env, legs[..k])
  {
    var n := |legs|;
    if k == n {
      assert legs[..k] == legs;
    } else {
      assert legs[..n - 1][..k] == legs[..k];
      LegsLinesStop(env, legs[..n - 1], k);
      LinesGoOn(env, legs);
    }
  }

  /** A render goes on leg by leg, up to the first that may not be shown. */
  lemma LinesGoOn(env: Env, legs: seq<Leg>)
    requires legs != []
    ensures
      var before, last := LegsLines(env, legs[..|legs| - 1]), LegLines(env, |legs|, legs[|legs| - 1]);
      && (before.Ok? && last.Ok? ==> LegsLines(env, legs) == Ok(before.value + last.value))
      && (before.Err? ==> LegsLines(env, legs) == before)
      && (before.Ok? && last.Err? ==> LegsLines(env, legs) == Err(last.error))
  {
  }

  /** `render`, line by line, stopping at the first leg that may not be shown. */
  method Render(env: Env, intent: Intent, bundleId: Hash) returns (claim: seq<string>, lines: Result<seq<string>>)
    ensures claim == ClaimLines(intent)
    ensures lines == RenderLines(env, intent, bundleId)
  {
    claim := if Trim(intent.purpose) == "" then [] else ["Purpose (claimed by the requester): " + Trim(intent.purpose)];
    var out := ["Account: " + Trim(intent.address), "Commitment: " + HexOfBytes(bundleId),
                Dec(|intent.legs|) + " item(s) to sign:"];
    var below: seq<string> := [];
    for i := 0 to |intent.legs|
      invariant LegsLines(env, intent.legs[..i]) == Ok(below)
    {
      var leg := LegLines(env, i + 1, intent.legs[i]);
      if leg.Err? {
        assert intent.legs[..i + 1][..i] == intent.legs[..i];
        LinesGoOn(env, intent.legs[..i + 1]);
        LegsLinesStop(env, intent.legs, i + 1);
        return claim, Err(leg.error);
      }
      assert intent.legs[..i + 1][..i] == intent.legs[..i];
      below := below + leg.value;
    }
    assert intent.legs[..|intent.legs|] == intent.legs;
    lines := Ok(out + below);
  }

  /** `ct_eq`: every byte is compared, whatever the earlier ones said. */
  method CtEq(a: Hash, b: Hash) returns (same: bool)
    ensures same <==> a == b
  {
    var diff: bv8 := 0;
    for i := 0 to 32
      invariant diff == 0 <==> a[..i] == b[..i]
    {
      assert a[..i + 1] == a[..i] + [a[i]] && b[..i + 1] == b[..i] + [b[i]];
      OrOfXor(diff, a[i], b[i]);
      diff := diff | (a[i] ^ b[i]);
    }
    assert a[..32] == a && b[..32] == b;
    same := diff == 0;
  }

  lemma OrOfXor(diff: bv8, x: bv8, y: bv8)
    ensures diff | (x ^ y) == 0 <==> diff == 0 && x == y
  {
  }

  // ---- handles -------------------------------------------------------------------------

  /** 128 random bits in hex, then the mint counter: fixed length first, so the rest is the counter. */
  function TokenHex(random: Bits, counter: nat): string
  {
    HexOfBytes(random) + Numeral(counter, 16)
  }

  function HandleOf(random: Bits, counter: nat): string
  {
    "ksh_" + TokenHex(random, counter)
  }

  function ReceiptOf(random: Bits, counter: nat): string
  {
    "ksc_" + TokenHex(random, counter)
  }

  /** Which mint a handle came from. */
  function MintOf(handle: string): nat {
    if |handle| >= 36 then NumeralValue(handle[36..], 16) else 0
  }

  lemma {:induction false} HexOfBytesLength(bytes: seq<bv8>)
    ensures |HexOfBytes(bytes)| == 2 * |bytes|
  {
    if bytes != [] {
      HexOfBytesLength(bytes[1..]);
    }
  }

  /** The counter can be read off a handle, whatever the random part was. */
  lemma HandleCarriesItsMint(random: Bits, counter: nat)
    ensures MintOf(HandleOf(random, counter)) == counter
  {
    HexOfBytesLength(random);
    NumeralRoundTrip(counter, 16);
    assert HandleOf(random, counter)[36..] == Numeral(counter, 16);
  }

  // ---- the record list -----------------------------------------------------------------

  predicate IsLive(r: Record) {
    !r.state.Settled?
  }

  function Elapsed(now: Time, since: Time): Time {
    if since <= now then now - since else 0
  }

  /** The first half of `sweep` on one record: expire an abandoned offer, date a settlement. */
  function SweepRecord(r: Record, now: Time, ttl: Time): Record {
    var expired := if r.state == Offered && Elapsed(now, r.offeredAt) > ttl then r.(state := Settled(ExpiredNoAck)) else r;
    if expired.state.Settled? && expired.settledAt.None? then expired.(settledAt := Some(now)) else expired
  }

  /** The second half: uncollected results, or a settlement still within its retention. */
  predicate Kept(r: Record, now: Time) {
    r.settledAt.Some? ==> r.results.Some? || Elapsed(now, r.settledAt.value) < SETTLED_RETENTION
  }

  function SweepOne(r: Record, now: Time, ttl: Time): seq<Record> {
    var x := SweepRecord(r, now, ttl);
    if Kept(x, now) then [x] else []
  }

  function SweepAll(rs: seq<Record>, now: Time, ttl: Time): seq<Record> {
    if rs == [] then [] else SweepOne(rs[0], now, ttl) + SweepAll(rs[1..], now, ttl)
  }

  /** Every record shown to an approver other than this one goes back to being offered. */
  function Demote(rs: seq<Record>, handle: string): seq<Record> {
    seq(|rs|, i requires 0 <= i < |rs| =>
      if rs[i].state == Rendered && rs[i].handle != handle then rs[i].(state := Offered) else rs[i])
  }

  /** The index of the first record with this handle, or the length. */
  function IndexOf(rs: seq<Record>, handle: string): (i: nat)
    ensures i <= |rs|
    ensures i < |rs| ==> rs[i].handle == handle
    ensures forall k :: 0 <= k < i ==> rs[k].handle != handle
  {
    if rs == [] || rs[0].handle == handle then 0 else 1 + IndexOf(rs[1..], handle)
  }

  function Find(rs: seq<Record>, handle: string): Option<Record> {
    var i := IndexOf(rs, handle);
    if i < |rs| then Some(rs[i]) else None
  }

  function IndexFor(rs: seq<Record>, handle: string, want: Hash): (i: nat)
    ensures i <= |rs|
    ensures i < |rs| ==> rs[i].handle == handle && rs[i].receiptHash == want
    ensures forall k :: 0 <= k < i ==> !(rs[k].handle == handle && rs[k].receiptHash == want)
  {
    if rs == [] || (rs[0].handle == handle && rs[0].receiptHash == want) then 0
    else 1 + IndexFor(rs[1..], handle, want)
  }

  function CountLive(rs: seq<Record>): nat {
    if rs == [] then 0 else (if IsLive(rs[0]) then 1 else 0) + CountLive(rs[1..])
  }

  function CountLiveOf(rs: seq<Record>, requester: string): nat {
    if rs == [] then 0
    else (if IsLive(rs[0]) && rs[0].requester == requester then 1 else 0) + CountLiveOf(rs[1..], requester)
  }

  // ---- signing a bundle ----------------------------------------------------------------

  function SignLeg(env: Env, signer: Signer, leg: Leg): Result<string> {
    var payload :- PayloadOf(leg);
    env.sign(signer, payload)
  }

  /** Each item in order; the first failure is the whole list's. */
  function Collect<T, U>(f: T -> Result<U>, xs: seq<T>): Result<seq<U>> {
    if xs == [] then Ok([])
    else
      var init :- Collect(f, xs[..|xs| - 1]);
      var last :- f(xs[|xs| - 1]);
      Ok(init + [last])
  }

  lemma {:induction false} CollectStops<T, U>(f: T -> Result<U>, xs: seq<T>, i: nat)
    requires i < |xs| && Collect(f, xs[..i]).Ok? && f(xs[i]).Err?
    ensures Collect(f, xs) == Err(f(xs[i]).error)
  {
    var n := |xs| - 1;
    if i < n {
      assert xs[..n][..i] == xs[..i] && xs[..n][i] == xs[i];
      CollectStops(f, xs[..n], i);
    }
  }

  lemma {:induction false} CollectInOrder<T, U>(f: T -> Result<U>, xs: seq<T>)
    requires Collect(f, xs).Ok?
    ensures |Collect(f, xs).value| == |xs|
    ensures forall i :: 0 <= i < |xs| ==> f(xs[i]) == Ok(Collect(f, xs).value[i])
  {
    if xs != [] {
      var n := |xs| - 1;
      CollectInOrder(f, xs[..n]);
      forall i | 0 <= i < |xs| ensures f(xs[i]) == Ok(Collect(f, xs).value[i]) {
        if i < n {
          assert f(xs[..n][i]) == Ok(Collect(f, xs[..n]).value[i]);
        }
      }
    }
  }

  /** A bundle under one signer. */
  function SignLegs(env: Env, signer: Signer, legs: seq<Leg>): Result<seq<string>> {
    Collect(leg => SignLeg(env, signer, leg), legs)
  }

  /** The signing loop of `approve`. */
  method SignAll(env: Env, signer: Signer, legs: seq<Leg>) returns (r: Result<seq<string>>)
    ensures r == SignLegs(env, signer, legs)
  {
    var out: seq<string> := [];
    ghost var f := leg => SignLeg(env, signer, leg);
    for k := 0 to |legs|
      invariant Collect(f, legs[..k]) == Ok(out)
    {
      var signed := SignLeg(env, signer, legs[k]);
      assert f(legs[k]) == signed;
      if signed.Err? {
        CollectStops(f, legs, k);
        return Err(signed.error);
      }
      assert legs[..k + 1][..k] == legs[..k];
      out := out + [signed.value];
    }
    assert legs[..|legs|] == legs;
    return Ok(out);
  }

  // ---- entry points, as functions of the ledger ----------------------------------------

  function Swept(l: Ledger, now: Time): Ledger {
    l.(records := SweepAll(l.records, now, l.ttl))
  }

  /** The record `request` opens. */
  function Opening(env: Env, requester: string, intent: Intent, lines: seq<string>, offeredAt: Time,
                   handle: string, receipt: string): Record {
    Record(handle, env.sha256(receipt), requester, intent, CommitmentOf(env, intent), ClaimLines(intent), lines,
           Offered, offeredAt, None, None)
  }

  /** `parsed` is what the JSON parser made of a submission of `size` bytes. */
  function Request(env: Env, l: Ledger, requester: string, size: nat, parsed: Option<Intent>,
                   now: Time, offeredAt: Time, random: Bits, secret: Bits): (Ledger, Result<(string, string)>)
  {
    var s := Swept(l, now);
    if size > MAX_INTENT_BYTES then (s, Err(InvalidParams))
    else if CountLive(s.records) >= MAX_PENDING_TOTAL then (s, Err(InvalidParams))
    else if CountLiveOf(s.records, requester) >= MAX_PENDING_PER_REQUESTER then (s, Err(InvalidParams))
    else if parsed.None? || parsed.value.legs == [] then (s, Err(InvalidParams))
    else if !Displayable(parsed.value.purpose) then (s, Err(InvalidParams))
    else
      match RenderLines(env, parsed.value, CommitmentOf(env, parsed.value))
      case Err(e) => (s, Err(e))
      case Ok(lines) =>
        var mint := s.minted + 1;
        var handle, receipt := HandleOf(random, mint), ReceiptOf(secret, mint);
        var r := Opening(env, requester, parsed.value, lines, offeredAt, handle, receipt);
        (s.(records := s.records + [r], minted := mint), Ok((handle, receipt)))
  }

  function ViewOf(r: Record): View {
    View(r.handle, HexOfBytes(r.bundleId), r.requester, r.claimLines, r.renderLines)
  }

  /** Claim a record for display. Any other one on display is demoted, even if this one is refused. */
  function Acknowledge(l: Ledger, handle: string, now: Time): (Ledger, Result<View>) {
    var s := Swept(l, now);
    var i := IndexOf(s.records, handle);
    if i == |s.records| then (s, Err(NotFound))
    else
      var rs := Demote(s.records, handle);
      if rs[i].state.Settled? then (s.(records := rs), Err(InvalidParams))
      else (s.(records := rs[i := rs[i].(state := Rendered)]), Ok(ViewOf(rs[i])))
  }

  function Echoed(echo: string): string {
    TrimStartMatches(Trim(echo), "0x")
  }

  /** What approving this record would sign: it must be on display, and echoed as displayed. */
  function Signing(env: Env, r: Record, echo: string, password: string): Result<seq<string>> {
    var current := CommitmentOf(env, r.intent);
    if r.state != Rendered then Err(InvalidParams)
    else if current != r.bundleId then Err(InvalidParams)
    else if Echoed(echo) != HexOfBytes(current) then Err(InvalidParams)
    else
      var signer :- env.signerFor(r.intent.address, password);
      SignLegs(env, signer, r.intent.legs)
  }

  /** The human said yes. */
  function Approve(env: Env, l: Ledger, handle: string, echo: string, password: string, now: Time): (Ledger, Result<nat>) {
    var s := Swept(l, now);
    var i := IndexOf(s.records, handle);
    if i == |s.records| then (s, Err(NotFound))
    else
      var r := s.records[i];
      match Signing(env, r, echo, password)
      case Err(e) => (s, Err(e))
      case Ok(signed) =>
        (s.(records := s.records[i := r.(results := Some(signed), state := Settled(Approved))]), Ok(|signed|))
  }

  function Reject(l: Ledger, handle: string, now: Time): (Ledger, Result<()>) {
    var s := Swept(l, now);
    var i := IndexOf(s.records, handle);
    if i == |s.records| then (s, Err(NotFound))
    else if s.records[i].state.Settled? then (s, Err(InvalidParams))
    else (s.(records := s.records[i := s.records[i].(state := Settled(Rejected))]), Ok(()))
  }

  function Status(env: Env, l: Ledger, handle: string, receipt: string, now: Time): (Ledger, Result<State>) {
    var s := Swept(l, now);
    var i := IndexFor(s.records, handle, env.sha256(receipt));
    if i == |s.records| then (s, Err(NotFound)) else (s, Ok(s.records[i].state))
  }

  function FetchResult(env: Env, l: Ledger, handle: string, receipt: string, now: Time): (Ledger, Result<seq<string>>) {
    var s := Swept(l, now);
    var i := IndexFor(s.records, handle, env.sha256(receipt));
    if i == |s.records| then (s, Err(NotFound))
    else if s.records[i].results.None? then (s, Err(InvalidParams))
    else (s, Ok(s.records[i].results.value))
  }

  /** The requester has the signatures. Swept only after they are erased. */
  function AckResult(env: Env, l: Ledger, handle: string, receipt: string, now: Time): (Ledger, Result<()>) {
    var i := IndexFor(l.records, handle, env.sha256(receipt));
    if i == |l.records| then (l, Err(NotFound))
    else (Swept(l.(records := l.records[i := l.records[i].(results := None)]), now), Ok(()))
  }

  function Cancel(env: Env, l: Ledger, handle: string, receipt: string, now: Time): (Ledger, Result<()>) {
    var i := IndexFor(l.records, handle, env.sha256(receipt));
    if i == |l.records| then (l, Err(NotFound))
    else
      var r := l.records[i];
      var gone := if r.state.Settled? then r else r.(state := Settled(Cancelled));
      (Swept(l.(records := l.records[i := gone.(results := None)]), now), Ok(()))
  }

  /** The `retain` of `sweep`, over records already brought up to date. */
  method Retained(ghost was: seq<Record>, current: seq<Record>, now: Time, ghost ttl: Time) returns (r: seq<Record>)
    requires |current| == |was|
    requires forall k :: 0 <= k < |was| ==> current[k] == SweepRecord(was[k], now, ttl)
    ensures r == SweepAll(was, now, ttl)
  {
    r := [];
    for i := 0 to |current|
      invariant r == SweepAll(was[..i], now, ttl)
    {
      SweepAllSnoc(was[..i], was[i], now, ttl);
      assert was[..i + 1] == was[..i] + [was[i]];
      if Kept(current[i], now) {
        r := r + [current[i]];
      }
    }
    assert was[..|was|] == was;
  }

  // ---- the store, updated in place -----------------------------------------------------

  class Approvals {
    var records: seq<Record>
    var minted: nat
    var abandonedOfferTtl: Time

    function Value(): Ledger
      reads this
    {
      Ledger(records, minted, abandonedOfferTtl)
    }

    constructor ()
      ensures Value() == NO_RECORDS
    {
      records, minted, abandonedOfferTtl := [], 0, ABANDONED_OFFER_TTL;
    }

    method SetAbandonedOfferTtl(d: Time)
      modifies this
      ensures Value() == old(Value()).(ttl := d)
    {
      abandonedOfferTtl := d;
    }

    /** Lazy housekeeping: first every record is brought up to date, then some are let go. */
    method Sweep(now: Time)
      modifies this
      ensures Value() == Swept(old(Value()), now)
    {
      Refresh(now);
      records := Retained(old(records), records, now, abandonedOfferTtl);
    }

    /** Expire the offers nobody came for and date the settlements. */
    method Refresh(now: Time)
      modifies this`records
      ensures |records| == |old(records)|
      ensures forall k :: 0 <= k < |records| ==> records[k] == SweepRecord(old(records)[k], now, abandonedOfferTtl)
    {
      ghost var was := records;
      for i := 0 to |records|
        invariant |records| == |was|
        invariant forall k :: 0 <= k < i ==> records[k] == SweepRecord(was[k], now, abandonedOfferTtl)
        invariant forall k :: i <= k < |was| ==> records[k] == was[k]
      {
        var r := records[i];
        if r.state == Offered && Elapsed(now, r.offeredAt) > abandonedOfferTtl {
          r := r.(state := Settled(ExpiredNoAck));
        }
        if r.state.Settled? && r.settledAt.None? {
          r := r.(settledAt := Some(now));
        }
        records := records[i := r];
      }
    }

    method FindIndex(handle: string) returns (i: nat)
      ensures i == IndexOf(records, handle)
    {
      i := 0;
      while i < |records| && records[i].handle != handle
        invariant i <= |records|
        invariant forall k :: 0 <= k < i ==> records[k].handle != handle
      {
        i := i + 1;
      }
      IndexUnique(records, handle, i);
    }

    method FindFor(handle: string, want: Hash) returns (i: nat)
      ensures i == IndexFor(records, handle, want)
    {
      i := 0;
      while i < |records|
        invariant i <= |records|
        invariant forall k :: 0 <= k < i ==> !(records[k].handle == handle && records[k].receiptHash == want)
      {
        var same := CtEq(records[i].receiptHash, want);
        if records[i].handle == handle && same {
          break;
        }
        i := i + 1;
      }
      IndexForUnique(records, handle, want, i);
    }

    method CountPending(requester: string) returns (total: nat, own: nat)
      ensures total == CountLive(records) && own == CountLiveOf(records, requester)
    {
      total, own := 0, 0;
      for i := 0 to |records|
        invariant total == CountLive(records[..i]) && own == CountLiveOf(records[..i], requester)
      {
        CountSnoc(records[..i], records[i], requester);
        assert records[..i + 1] == records[..i] + [records[i]];
        if IsLive(records[i]) {
          total := total + 1;
          if records[i].requester == requester {
            own := own + 1;
          }
        }
      }
      assert records[..|records|] == records;
    }

    method OpenRequest(env: Env, requester: string, size: nat, parsed: Option<Intent>,
                       now: Time, offeredAt: Time, random: Bits, secret: Bits) returns (r: Result<(string, string)>)
      modifies this
      ensures
        var spec := Request(env, old(Value()), requester, size, parsed, now, offeredAt, random, secret);
        (Value(), r) == spec
    {
      Sweep(now);
      if size > MAX_INTENT_BYTES {
        return Err(InvalidParams);
      }
      var total, own := CountPending(requester);
      if total >= MAX_PENDING_TOTAL {
        return Err(InvalidParams);
      }
      if own >= MAX_PENDING_PER_REQUESTER {
        return Err(InvalidParams);
      }
      if parsed.None? || parsed.value.legs == [] {
        return Err(InvalidParams);
      }
      var intent := parsed.value;
      if !Displayable(intent.purpose) {
        return Err(InvalidParams);
      }
      var preimage := Feed(env.lower, intent);
      var bundleId := env.sha256(preimage);
      var claim, lines := Render(env, intent, bundleId);
      if lines.Err? {
        return Err(lines.error);
      }
      minted := minted + 1;
      var handle, receipt := HandleOf(random, minted), ReceiptOf(secret, minted);
      records := records + [Record(handle, env.sha256(receipt), requester, intent, bundleId, claim, lines.value,
                                   Offered, offeredAt, None, None)];
      return Ok((handle, receipt));
    }

    method DemoteOthers(handle: string)
      modifies this`records
      ensures records == Demote(old(records), handle)
    {
      ghost var was := records;
      for k := 0 to |records|
        invariant |records| == |was|
        invariant forall j :: 0 <= j < k ==> records[j] == Demote(was, handle)[j]
        invariant forall j :: k <= j < |was| ==> records[j] == was[j]
      {
        if records[k].state == Rendered && records[k].handle != handle {
          records := records[k := records[k].(state := Offered)];
        }
      }
    }

    method AcknowledgeRecord(handle: string, now: Time) returns (r: Result<View>)
      modifies this
      ensures (Value(), r) == Acknowledge(old(Value()), handle, now)
    {
      Sweep(now);
      var i := FindIndex(handle);
      if i == |records| {
        return Err(NotFound);
      }
      DemoteOthers(handle);
      if records[i].state.Settled? {
        return Err(InvalidParams);
      }
      r := Ok(ViewOf(records[i]));
      records := records[i := records[i].(state := Rendered)];
    }

    method ApproveRecord(env: Env, handle: string, echo: string, password: string, now: Time) returns (r: Result<nat>)
      modifies this
      ensures (Value(), r) == Approve(env, old(Value()), handle, echo, password, now)
    {
      Sweep(now);
      var i := FindIndex(handle);
      if i == |records| {
        return Err(NotFound);
      }
      var record := records[i];
      if record.state != Rendered {
        return Err(InvalidParams);
      }
      var preimage := Feed(env.lower, record.intent);
      var current := env.sha256(preimage);
      if current != record.bundleId {
        return Err(InvalidParams);
      }
      if Echoed(echo) != HexOfBytes(current) {
        return Err(InvalidParams);
      }
      var signer := env.signerFor(record.intent.address, password);
      if signer.Err? {
        return Err(signer.error);
      }
      var signed := SignAll(env, signer.value, record.intent.legs);
      if signed.Err? {
        return Err(signed.error);
      }
      records := records[i := record.(results := Some(signed.value), state := Settled(Approved))];
      return Ok(|signed.value|);
    }

    method RejectRecord(handle: string, now: Time) returns (r: Result<()>)
      modifies this
      ensures (Value(), r) == Reject(old(Value()), handle, now)
    {
      Sweep(now);
      var i := FindIndex(handle);
      if i == |records| {
        return Err(NotFound);
      }
      if records[i].state.Settled? {
        return Err(InvalidParams);
      }
      records := records[i := records[i].(state := Settled(Rejected))];
      return Ok(());
    }

    method StatusOf(env: Env, handle: string, receipt: string, now: Time) returns (r: Result<State>)
      modifies this
      ensures (Value(), r) == Status(env, old(Value()), handle, receipt, now)
    {
      Sweep(now);
      var i := FindFor(handle, env.sha256(receipt));
      return if i == |records| then Err(NotFound) else Ok(records[i].state);
    }

    method Fetch(env: Env, handle: string, receipt: string, now: Time) returns (r: Result<seq<string>>)
      modifies this
      ensures (Value(), r) == FetchResult(env, old(Value()), handle, receipt, now)
    {
      Sweep(now);
      var i := FindFor(handle, env.sha256(receipt));
      if i == |records| {
        return Err(NotFound);
      }
      return if records[i].results.None? then Err(InvalidParams) else Ok(records[i].results.value);
    }

    method Ack(env: Env, handle: string, receipt: string, now: Time) returns (r: Result<()>)
      modifies this
      ensures (Value(), r) == AckResult(env, old(Value()), handle, receipt, now)
    {
      var i := FindFor(handle, env.sha256(receipt));
      if i == |records| {
        return Err(NotFound);
      }
      records := records[i := records[i].(results := None)];
      Sweep(now);
      return Ok(());
    }

    method CancelRecord(env: Env, handle: string, receipt: string, now: Time) returns (r: Result<()>)
      modifies this
      ensures (Value(), r) == Cancel(env, old(Value()), handle, receipt, now)
    {
      var i := FindFor(handle, env.sha256(receipt));
      if i == |records| {
        return Err(NotFound);
      }
      var gone := records[i];
      if !gone.state.Settled? {
        gone := gone.(state := Settled(Cancelled));
      }
      records := records[i := gone.(results := None)];
      Sweep(now);
      return Ok(());
    }
  }

  // ---- facts the loops rest on ---------------------------------------------------------

  lemma {:induction false} SweepAllSnoc(rs: seq<Record>, r: Record, now: Time, ttl: Time)
    ensures SweepAll(rs + [r], now, ttl) == SweepAll(rs, now, ttl) + SweepOne(r, now, ttl)
  {
    if rs == [] {
      assert SweepAll(([r])[1..], now, ttl) == [] && [] + [r] == [r];
    } else {
      SweepAllSnoc(rs[1..], r, now, ttl);
      assert (rs + [r])[1..] == rs[1..] + [r] && (rs + [r])[0] == rs[0];
    }
  }

  lemma IndexUnique(rs: seq<Record>, handle: string, i: nat)
    requires i <= |rs| && (i < |rs| ==> rs[i].handle == handle)
    requires forall k :: 0 <= k < i ==> rs[k].handle != handle
    ensures i == IndexOf(rs, handle)
  {
  }

  lemma IndexForUnique(rs: seq<Record>, handle: string, want: Hash, i: nat)
    requires i <= |rs| && (i < |rs| ==> rs[i].handle == handle && rs[i].receiptHash == want)
    requires forall k :: 0 <= k < i ==> !(rs[k].handle == handle && rs[k].receiptHash == want)
    ensures i == IndexFor(rs, handle, want)
  {
  }

  lemma {:induction false} CountSnoc(rs: seq<Record>, r: Record, requester: string)
    ensures CountLive(rs + [r]) == CountLive(rs) + if IsLive(r) then 1 else 0
    ensures CountLiveOf(rs + [r], requester) ==
      CountLiveOf(rs, requester) + if IsLive(r) && r.requester == requester then 1 else 0
  {
    if rs == [] {
      assert ([r])[1..] == [] && [] + [r] == [r];
    } else {
      CountSnoc(rs[1..], r, requester);
      assert (rs + [r])[1..] == rs[1..] + [r] && (rs + [r])[0] == rs[0];
    }
  }
}
