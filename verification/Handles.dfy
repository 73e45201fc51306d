/**
 The approval ledger seen from one handle.

 The record list of rust-lib/src/approval.rs is a map from handles: each entry point changes
 what a handle answers as `Fate` says, from what handles answered before and nothing else.
 Handles stay distinct because each one carries the count of its mint.
 */
module Handles {
  import opened Base
  import opened Text
  import opened Commitment
  import opened Approval

  /** One call of an entry point, with the instant it reads from the clock. */
  datatype Call =
    | RequestCall(requester: string, size: nat, parsed: Option<Intent>, now: Time, offeredAt: Time, random: Bits, secret: Bits)
    | AcknowledgeCall(handle: string, now: Time)
    | ApproveCall(handle: string, echo: string, password: string, vaults: (string, string) -> Result<Signer>, now: Time)
    | RejectCall(handle: string, now: Time)
    | StatusCall(handle: string, receipt: string, now: Time)
    | FetchCall(handle: string, receipt: string, now: Time)
    | AckCall(handle: string, receipt: string, now: Time)
    | CancelCall(handle: string, receipt: string, now: Time)
    | PendingCall(now: Time)
    | SetTtlCall(ttl: Time, now: Time)

  datatype Reply =
    | Opened(r: Result<(string, string)>)
    | Shown(view: Result<View>)
    | Signed(count: Result<nat>)
    | Answered(state: Result<State>)
    | Fetched(results: Result<seq<string>>)
    | Done(done: Result<()>)
    | Quiet

  function Step(env: Env, l: Ledger, c: Call): (Ledger, Reply) {
    match c
    case RequestCall(requester, size, parsed, now, offeredAt, random, secret) =>
      var (m, r) := Request(env, l, requester, size, parsed, now, offeredAt, random, secret);
      (m, Opened(r))
    case AcknowledgeCall(handle, now) => var (m, r) := Acknowledge(l, handle, now); (m, Shown(r))
    case ApproveCall(handle, echo, password, vaults, now) =>
      var (m, r) := Approve(env.(signerFor := vaults), l, handle, echo, password, now);
      (m, Signed(r))
    case RejectCall(handle, now) => var (m, r) := Reject(l, handle, now); (m, Done(r))
    case StatusCall(handle, receipt, now) => var (m, r) := Status(env, l, handle, receipt, now); (m, Answered(r))
    case FetchCall(handle, receipt, now) => var (m, r) := FetchResult(env, l, handle, receipt, now); (m, Fetched(r))
    case AckCall(handle, receipt, now) => var (m, r) := AckResult(env, l, handle, receipt, now); (m, Done(r))
    case CancelCall(handle, receipt, now) => var (m, r) := Cancel(env, l, handle, receipt, now); (m, Done(r))
    case PendingCall(now) => (Swept(l, now), Quiet)
    case SetTtlCall(ttl, _) => (l.(ttl := ttl), Quiet)
  }

  // ---- one handle ----------------------------------------------------------------------

  /** What a sweep makes of one record. */
  function Aged(o: Option<Record>, now: Time, ttl: Time): Option<Record> {
    match o
    case None => None
    case Some(r) =>
      var x := SweepRecord(r, now, ttl);
      if Kept(x, now) then Some(x) else None
  }

  predicate Holds(o: Option<Record>, want: Hash) {
    o.Some? && o.value.receiptHash == want
  }

  /** What a call opens, if it opens anything. */
  function Opens(env: Env, l: Ledger, c: Call): Option<Record> {
    var (m, reply) := Step(env, l, c);
    if c.RequestCall? && reply.r.Ok? then
      match RenderLines(env, c.parsed.value, CommitmentOf(env, c.parsed.value))
      case Err(_) => None
      case Ok(lines) => Some(Opening(env, c.requester, c.parsed.value, lines, c.offeredAt, reply.r.value.0, reply.r.value.1))
    else None
  }

  /** A call that gives up a record's results. It does nothing unless its receipt matches. */
  predicate Erasing(c: Call) {
    c.AckCall? || c.CancelCall?
  }

  function Erased(c: Call, r: Record): Record
    requires Erasing(c)
  {
    (if c.AckCall? || r.state.Settled? then r else r.(state := Settled(Cancelled))).(results := None)
  }

  predicate Mismatched(env: Env, l: Ledger, c: Call) {
    Erasing(c) && !Holds(Find(l.records, c.handle), env.sha256(c.receipt))
  }

  /** What is left of a handle once the call has swept. */
  function Passed(env: Env, l: Ledger, c: Call, h: string): Option<Record> {
    var before := Find(l.records, h);
    if c.SetTtlCall? || Mismatched(env, l, c) then before
    else if Erasing(c) && c.handle == h then Aged(Some(Erased(c, before.value)), c.now, l.ttl)
    else Aged(before, c.now, l.ttl)
  }

  /** What an approver's call then makes of a record; `found` tells whether its own handle was there. */
  function Changed(env: Env, found: bool, c: Call, r: Record): Record {
    match c
    case AcknowledgeCall(g, _) =>
      if g == r.handle then (if r.state.Settled? then r else r.(state := Rendered))
      else if found && r.state == Rendered then r.(state := Offered)
      else r
    case ApproveCall(g, echo, password, vaults, _) =>
      if g != r.handle then r
      else
        (match Signing(env.(signerFor := vaults), r, echo, password)
         case Err(_) => r
         case Ok(signed) => r.(results := Some(signed), state := Settled(Approved)))
    case RejectCall(g, _) => if g != r.handle || r.state.Settled? then r else r.(state := Settled(Rejected))
    case _ => r
  }

  predicate Finds(l: Ledger, c: Call) {
    c.AcknowledgeCall? && Aged(Find(l.records, c.handle), c.now, l.ttl).Some?
  }

  /** What `h` answers after a call, from what handles answered before it. */
  function Fate(env: Env, l: Ledger, c: Call, h: string): Option<Record> {
    var passed := Passed(env, l, c, h);
    if c.RequestCall? then
      var opening := Opens(env, l, c);
      if opening.Some? && opening.value.handle == h then opening else passed
    else
      match passed
      case None => None
      case Some(r) => Some(Changed(env, Finds(l, c), c, r))
  }

  // ---- the list as a map ---------------------------------------------------------------

  /** The mints of a list's handles climb, from above `lo` to at most `hi`. */
  predicate Climbs(rs: seq<Record>, lo: nat, hi: nat) {
    rs != [] ==> lo < MintOf(rs[0].handle) <= hi && Climbs(rs[1..], MintOf(rs[0].handle), hi)
  }

  predicate Distinct(l: Ledger) {
    Climbs(l.records, 0, l.minted)
  }

  lemma {:induction false} Lower(rs: seq<Record>, lo: nat, mid: nat, hi: nat)
    requires Climbs(rs, mid, hi) && lo <= mid
    ensures Climbs(rs, lo, hi)
  {
  }

  lemma {:induction false} OutsideTheClimb(rs: seq<Record>, lo: nat, hi: nat, h: string)
    requires Climbs(rs, lo, hi) && (MintOf(h) <= lo || MintOf(h) > hi)
    ensures Find(rs, h) == None
  {
    if rs != [] {
      var mid := MintOf(rs[0].handle);
      OutsideTheClimb(rs[1..], mid, hi, h);
    }
  }

  lemma FindCons(rs: seq<Record>, h: string)
    requires rs != []
    ensures Find(rs, h) == if rs[0].handle == h then Some(rs[0]) else Find(rs[1..], h)
  {
  }

  lemma {:induction false} FindSweep(rs: seq<Record>, now: Time, ttl: Time, lo: nat, hi: nat, h: string)
    requires Climbs(rs, lo, hi)
    ensures Find(SweepAll(rs, now, ttl), h) == Aged(Find(rs, h), now, ttl)
  {
    if rs != [] {
      var r, mid := SweepRecord(rs[0], now, ttl), MintOf(rs[0].handle);
      FindSweep(rs[1..], now, ttl, mid, hi, h);
      FindCons(rs, h);
      if Kept(r, now) {
        var out := SweepAll(rs, now, ttl);
        assert out[0] == r && out[1..] == SweepAll(rs[1..], now, ttl);
        FindCons(out, h);
      } else {
        assert SweepAll(rs, now, ttl) == SweepAll(rs[1..], now, ttl);
      }
      if rs[0].handle == h {
        OutsideTheClimb(rs[1..], mid, hi, h);
      }
    }
  }

  lemma {:induction false} SweepClimbs(rs: seq<Record>, now: Time, ttl: Time, lo: nat, hi: nat)
    requires Climbs(rs, lo, hi)
    ensures Climbs(SweepAll(rs, now, ttl), lo, hi)
  {
    if rs != [] {
      var r, mid := SweepRecord(rs[0], now, ttl), MintOf(rs[0].handle);
      SweepClimbs(rs[1..], now, ttl, mid, hi);
      var out := SweepAll(rs, now, ttl);
      if Kept(r, now) {
        assert out[0] == r && out[1..] == SweepAll(rs[1..], now, ttl);
      } else {
        assert out == SweepAll(rs[1..], now, ttl);
        Lower(out, lo, mid, hi);
      }
    }
  }

  predicate SameHandles(rs: seq<Record>, to: seq<Record>) {
    |rs| == |to| && forall k :: 0 <= k < |rs| ==> rs[k].handle == to[k].handle
  }

  lemma {:induction false} RewriteClimbs(rs: seq<Record>, to: seq<Record>, lo: nat, hi: nat)
    requires Climbs(rs, lo, hi) && SameHandles(rs, to)
    ensures Climbs(to, lo, hi)
  {
    if rs != [] {
      RewriteClimbs(rs[1..], to[1..], MintOf(rs[0].handle), hi);
    }
  }

  lemma {:induction false} AppendClimbs(rs: seq<Record>, r: Record, lo: nat, hi: nat)
    requires Climbs(rs, lo, hi) && MintOf(r.handle) == hi + 1 && lo <= hi
    ensures Climbs(rs + [r], lo, hi + 1)
  {
    var to := rs + [r];
    if rs != [] {
      AppendClimbs(rs[1..], r, MintOf(rs[0].handle), hi);
      assert to[1..] == rs[1..] + [r] && to[0] == rs[0];
    } else {
      assert to[1..] == [] && to[0] == r;
    }
  }

  lemma FindRewrite(rs: seq<Record>, to: seq<Record>, h: string)
    requires SameHandles(rs, to)
    ensures IndexOf(to, h) == IndexOf(rs, h)
  {
    IndexUnique(to, h, IndexOf(rs, h));
  }

  lemma FindUpdate(rs: seq<Record>, i: nat, r: Record, h: string)
    requires i < |rs| && r.handle == rs[i].handle && i == IndexOf(rs, r.handle)
    ensures Find(rs[i := r], h) == if r.handle == h then Some(r) else Find(rs, h)
  {
    FindRewrite(rs, rs[i := r], h);
  }

  lemma FindDemote(rs: seq<Record>, g: string, h: string)
    ensures IndexOf(Demote(rs, g), h) == IndexOf(rs, h)
    ensures Find(Demote(rs, g), h) ==
      if Find(rs, h).Some? && Find(rs, h).value.state == Rendered && g != h
      then Some(Find(rs, h).value.(state := Offered)) else Find(rs, h)
  {
    FindRewrite(rs, Demote(rs, g), h);
  }

  lemma FindAppend(rs: seq<Record>, r: Record, h: string)
    ensures Find(rs + [r], h) == if Find(rs, h).Some? then Find(rs, h) else if r.handle == h then Some(r) else None
  {
    var i := IndexOf(rs, h);
    IndexUnique(rs + [r], h, if i == |rs| && r.handle != h then i + 1 else i);
  }

  /** Looking up a handle with a receipt finds the handle's only record, or nothing. */
  lemma {:induction false} IndexForIsIndexOf(rs: seq<Record>, lo: nat, hi: nat, h: string, want: Hash)
    requires Climbs(rs, lo, hi)
    ensures IndexFor(rs, h, want) == if Holds(Find(rs, h), want) then IndexOf(rs, h) else |rs|
  {
    if rs != [] {
      var mid := MintOf(rs[0].handle);
      FindCons(rs, h);
      IndexForIsIndexOf(rs[1..], mid, hi, h, want);
      if rs[0].handle == h {
        OutsideTheClimb(rs[1..], mid, hi, h);
      }
    }
  }

  lemma FindSwept(l: Ledger, now: Time, h: string)
    requires Distinct(l)
    ensures Distinct(Swept(l, now))
    ensures Find(Swept(l, now).records, h) == Aged(Find(l.records, h), now, l.ttl)
  {
    FindSweep(l.records, now, l.ttl, 0, l.minted, h);
    SweepClimbs(l.records, now, l.ttl, 0, l.minted);
  }

  // ---- every call, seen from one handle ------------------------------------------------

  lemma RequestOnHandles(env: Env, l: Ledger, c: Call, h: string)
    requires Distinct(l) && c.RequestCall?
    ensures Distinct(Step(env, l, c).0)
    ensures Find(Step(env, l, c).0.records, h) == Fate(env, l, c, h)
    ensures l.minted <= Step(env, l, c).0.minted
    ensures Opens(env, l, c).Some? ==> MintOf(Opens(env, l, c).value.handle) == l.minted + 1 == Step(env, l, c).0.minted
    ensures Opens(env, l, c).Some? <==> Step(env, l, c).1.r.Ok?
  {
    var s := Swept(l, c.now);
    FindSwept(l, c.now, h);
    var (m, reply) := Step(env, l, c);
    if reply.r.Err? {
      assert m == s;
    } else {
      HandleCarriesItsMint(c.random, s.minted + 1);
      var r := Opens(env, l, c).value;
      assert m.records == s.records + [r];
      AppendClimbs(s.records, r, 0, s.minted);
      FindAppend(s.records, r, h);
      OutsideTheClimb(s.records, 0, s.minted, r.handle);
    }
  }

  lemma AcknowledgeOnHandles(env: Env, l: Ledger, c: Call, h: string)
    requires Distinct(l) && c.AcknowledgeCall?
    ensures Distinct(Step(env, l, c).0)
    ensures Find(Step(env, l, c).0.records, h) == Fate(env, l, c, h)
  {
    FindSwept(l, c.now, h);
    FindSwept(l, c.now, c.handle);
    AcknowledgedList(l, c.handle, c.now, h);
  }

  /** What acknowledging does to what a handle answers, once the list has been swept. */
  lemma AcknowledgedList(l: Ledger, g: string, now: Time, h: string)
    requires Distinct(Swept(l, now))
    ensures
      var s, x := Swept(l, now), Acknowledge(l, g, now).0;
      var mine, asked := Find(s.records, h), Find(s.records, g);
      && Distinct(x)
      && Find(x.records, h) ==
           if asked.None? then mine
           else if h == g then (if asked.value.state.Settled? then asked else Some(asked.value.(state := Rendered)))
           else if mine.Some? && mine.value.state == Rendered then Some(mine.value.(state := Offered))
           else mine
  {
    var s := Swept(l, now);
    var i := IndexOf(s.records, g);
    if i < |s.records| {
      ShownOnHandles(s, g, i, h);
      FindDemote(s.records, g, h);
    }
  }

  /** The others are taken off the display, and this one is put there. */
  lemma ShownOnHandles(s: Ledger, handle: string, i: nat, h: string)
    requires Distinct(s) && i == IndexOf(s.records, handle) < |s.records|
    ensures |Demote(s.records, handle)| == |s.records| && Demote(s.records, handle)[i] == s.records[i]
    ensures IndexOf(Demote(s.records, handle), handle) == i && Distinct(s.(records := Demote(s.records, handle)))
    ensures
      var rs := Demote(s.records, handle);
      var xs := rs[i := rs[i].(state := Rendered)];
      && Distinct(s.(records := xs))
      && Find(xs, h) ==
           if h == handle then Some(s.records[i].(state := Rendered))
           else if Find(s.records, h).Some? && Find(s.records, h).value.state == Rendered
           then Some(Find(s.records, h).value.(state := Offered)) else Find(s.records, h)
  {
    var rs := Demote(s.records, handle);
    RewriteClimbs(s.records, rs, 0, s.minted);
    FindDemote(s.records, handle, h);
    FindDemote(s.records, handle, handle);
    FindUpdate(rs, i, rs[i].(state := Rendered), h);
    RewriteClimbs(rs, rs[i := rs[i].(state := Rendered)], 0, s.minted);
  }

  lemma UpdateOnHandles(s: Ledger, i: nat, r: Record, h: string)
    requires Distinct(s) && i < |s.records| && r.handle == s.records[i].handle && i == IndexOf(s.records, r.handle)
    ensures Distinct(s.(records := s.records[i := r]))
    ensures Find(s.records[i := r], h) == if r.handle == h then Some(r) else Find(s.records, h)
  {
    FindUpdate(s.records, i, r, h);
    RewriteClimbs(s.records, s.records[i := r], 0, s.minted);
  }

  lemma UpdateThenSweep(s: Ledger, i: nat, r: Record, now: Time, h: string)
    requires Distinct(s) && i < |s.records| && r.handle == s.records[i].handle && i == IndexOf(s.records, r.handle)
    ensures
      var x := Swept(s.(records := s.records[i := r]), now);
      Distinct(x) && Find(x.records, h) == Aged(if r.handle == h then Some(r) else Find(s.records, h), now, s.ttl)
  {
    UpdateOnHandles(s, i, r, h);
    FindSwept(s.(records := s.records[i := r]), now, h);
  }

  lemma ApproveOnHandles(env: Env, l: Ledger, c: Call, h: string)
    requires Distinct(l) && c.ApproveCall?
    ensures Distinct(Step(env, l, c).0)
    ensures Find(Step(env, l, c).0.records, h) == Fate(env, l, c, h)
  {
    var s := Swept(l, c.now);
    FindSwept(l, c.now, h);
    FindSwept(l, c.now, c.handle);
    var i := IndexOf(s.records, c.handle);
    if i < |s.records| && Signing(env.(signerFor := c.vaults), s.records[i], c.echo, c.password).Ok? {
      UpdateOnHandles(s, i, Changed(env, false, c, s.records[i]), h);
    }
  }

  lemma RejectOnHandles(env: Env, l: Ledger, c: Call, h: string)
    requires Distinct(l) && c.RejectCall?
    ensures Distinct(Step(env, l, c).0)
    ensures Find(Step(env, l, c).0.records, h) == Fate(env, l, c, h)
  {
    var s := Swept(l, c.now);
    FindSwept(l, c.now, h);
    FindSwept(l, c.now, c.handle);
    var i := IndexOf(s.records, c.handle);
    if i < |s.records| && !s.records[i].state.Settled? {
      UpdateOnHandles(s, i, Changed(env, false, c, s.records[i]), h);
    }
  }

  /** The state an erasing call whose receipt matches leaves. */
  lemma ErasureState(env: Env, l: Ledger, c: Call)
    requires Distinct(l) && Erasing(c)
    ensures Mismatched(env, l, c) ==> Step(env, l, c).0 == l
    ensures !Mismatched(env, l, c) ==>
      var i := IndexOf(l.records, c.handle);
      i < |l.records| && Step(env, l, c).0 == Swept(l.(records := l.records[i := Erased(c, l.records[i])]), c.now)
  {
    IndexForIsIndexOf(l.records, 0, l.minted, c.handle, env.sha256(c.receipt));
  }

  lemma ErasureOnHandles(env: Env, l: Ledger, c: Call, h: string)
    requires Distinct(l) && Erasing(c)
    ensures Distinct(Step(env, l, c).0)
    ensures Find(Step(env, l, c).0.records, h) == Fate(env, l, c, h)
  {
    ErasureState(env, l, c);
    if !Mismatched(env, l, c) {
      var i := IndexOf(l.records, c.handle);
      var r := Erased(c, l.records[i]);
      UpdateThenSweep(l, i, r, c.now, h);
    }
  }

  lemma LookupsOnlySweep(env: Env, l: Ledger, c: Call)
    requires c.StatusCall? || c.FetchCall? || c.PendingCall?
    ensures Step(env, l, c).0 == Swept(l, c.now)
  {
  }

  lemma LookupOnHandles(env: Env, l: Ledger, c: Call, h: string)
    requires Distinct(l) && (c.StatusCall? || c.FetchCall? || c.PendingCall?)
    ensures Distinct(Step(env, l, c).0)
    ensures Find(Step(env, l, c).0.records, h) == Fate(env, l, c, h)
  {
    LookupsOnlySweep(env, l, c);
    FindSwept(l, c.now, h);
  }

  lemma OnlyRequestsMint(env: Env, l: Ledger, c: Call)
    requires !c.RequestCall?
    ensures Step(env, l, c).0.minted == l.minted
  {
  }

  /** The ledger is a map from distinct handles, and every call acts on it as `Fate` says. */
  lemma StepOnHandles(env: Env, l: Ledger, c: Call, h: string)
    requires Distinct(l)
    ensures Distinct(Step(env, l, c).0)
    ensures Find(Step(env, l, c).0.records, h) == Fate(env, l, c, h)
    ensures l.minted <= Step(env, l, c).0.minted
  {
    if c.RequestCall? {
      RequestOnHandles(env, l, c, h);
    } else {
      OnlyRequestsMint(env, l, c);
      match c {
        case AcknowledgeCall(_, _) => AcknowledgeOnHandles(env, l, c, h);
        case ApproveCall(_, _, _, _, _) => ApproveOnHandles(env, l, c, h);
        case RejectCall(_, _) => RejectOnHandles(env, l, c, h);
        case AckCall(_, _, _) => ErasureOnHandles(env, l, c, h);
        case CancelCall(_, _, _) => ErasureOnHandles(env, l, c, h);
        case SetTtlCall(_, _) =>
        case _ => LookupOnHandles(env, l, c, h);
      }
    }
  }

  /** What a call answers depends on its handle alone. */
  lemma RepliesOnHandles(env: Env, l: Ledger, c: Call)
    requires Distinct(l)
    ensures c.FetchCall? ==> Step(env, l, c).1 == Fetched(
      var o := Aged(Find(l.records, c.handle), c.now, l.ttl);
      if !Holds(o, env.sha256(c.receipt)) then Err(NotFound)
      else if o.value.results.None? then Err(InvalidParams)
      else Ok(o.value.results.value))
    ensures c.StatusCall? ==> Step(env, l, c).1 == Answered(
      var o := Aged(Find(l.records, c.handle), c.now, l.ttl);
      if !Holds(o, env.sha256(c.receipt)) then Err(NotFound) else Ok(o.value.state))
    ensures c.AckCall? || c.CancelCall? ==> Step(env, l, c).1 == Done(
      if !Holds(Find(l.records, c.handle), env.sha256(c.receipt)) then Err(NotFound) else Ok(()))
  {
    if c.FetchCall? || c.StatusCall? {
      FindSwept(l, c.now, c.handle);
      IndexForIsIndexOf(Swept(l, c.now).records, 0, l.minted, c.handle, env.sha256(c.receipt));
    } else if c.AckCall? || c.CancelCall? {
      IndexForIsIndexOf(l.records, 0, l.minted, c.handle, env.sha256(c.receipt));
    }
  }

  /** The same for the two calls an approver makes. */
  lemma DecisionsOnHandles(env: Env, l: Ledger, c: Call)
    requires Distinct(l)
    ensures c.AcknowledgeCall? ==> Step(env, l, c).1 == Shown(
      var o := Aged(Find(l.records, c.handle), c.now, l.ttl);
      if o.None? then Err(NotFound) else if o.value.state.Settled? then Err(InvalidParams) else Ok(ViewOf(o.value)))
    ensures c.ApproveCall? ==> Step(env, l, c).1 == Signed(
      var o := Aged(Find(l.records, c.handle), c.now, l.ttl);
      if o.None? then Err(NotFound)
      else
        match Signing(env.(signerFor := c.vaults), o.value, c.echo, c.password)
        case Err(e) => Err(e)
        case Ok(signed) => Ok(|signed|))
  {
    if c.AcknowledgeCall? || c.ApproveCall? {
      FindSwept(l, c.now, c.handle);
      FindDemote(Swept(l, c.now).records, c.handle, c.handle);
    }
  }
}
