/**
 What the lines an approver is shown say, and that it is what will be signed.

 `render` and `norm_num` of rust-lib/src/approval.rs, read back by the grammars of `Readings`:
 every number, address, byte and text of a leg that signs is told by a line of its own, as
 the value that goes under the signature.
 */
module Telling {
  import opened Base
  import opened Text
  import opened TxForm
  import opened Commitment
  import opened Readings
  import opened CaseFold
  import opened Cutting
  import opened Shown
  import Approval
  import Handles
  import Runs = ApprovalRuns

  const INDENT: string := Approval.INDENT

  // ---- numbers -------------------------------------------------------------------------

  /** `shown` is `t`, and behind it in parentheses this decimal numeral. */
  predicate Beside(shown: string, t: string, d: string) {
    shown == t + (" (" + d + ")")
  }

  /**
   How the field `t`, which is the number `v`, is shown: as it was submitted, and with the
   number in decimal beside it iff it is hexadecimal and below 2^128. Nothing at all is "0".
   */
  ghost predicate TellsNumber(shown: string, t: string, v: nat) {
    if t == "" then shown == "0" && v == 0
    else if Hexed(t) && v < U128_LIMIT then exists d :: Spells(d, 10, v) && Beside(shown, t, d)
    else shown == t && SpellsNumber(t, v)
  }

  lemma DecSpells(n: nat)
    ensures Spells(Dec(n), 10, n)
  {
    NumeralRoundTrip(n, 10);
  }

  lemma UnsignedIsOne(s: string, radix: nat, v: nat, w: nat)
    requires radix <= 16 && SpellsUnsigned(s, radix, v) && SpellsUnsigned(s, radix, w)
    ensures v == w
  {
    if s != "" && s[0] == '+' {
      assert DigitValue(s[0]) == 16;
    }
  }

  lemma HexShown(h: string, v: nat)
    requires SpellsUnsigned(h, 16, v)
    ensures ParseUnsigned(h, 16, U128_LIMIT) == if v < U128_LIMIT then Some(v) else None
  {
    UnsignedExactly(h, 16, U128_LIMIT, v);
    var r := ParseUnsigned(h, 16, U128_LIMIT);
    if r.Some? {
      UnsignedExactly(h, 16, U128_LIMIT, r.value);
      UnsignedIsOne(h, 16, v, r.value);
    }
  }

  lemma NumberTold(s: string, limit: nat, v: nat)
    requires limit > 0 && ReadNumber(Trim(s), limit) == Ok(v)
    ensures TellsNumber(Approval.NormNum(s), Trim(s), v)
  {
    var t := Trim(s);
    ReadNumberExactly(t, limit, v);
    MarkExactly(t);
    if t != "" && Hexed(t) {
      HexShown(t[2..], v);
      if v < U128_LIMIT {
        DecSpells(v);
        Associates(t, Dec(v));
        assert Beside(Approval.NormNum(s), t, Dec(v));
      }
    }
  }

  lemma Associates(t: string, d: string)
    ensures t + " (" + d + ")" == t + (" (" + d + ")")
  {
  }

  // ---- calldata ------------------------------------------------------------------------

  /** Marked with a capital `X`, which the lines do not take for a mark. */
  predicate CapitalMark(t: string) {
    StartsWith(t, "0X")
  }

  /** All of it, and in front of that its first eight digits where there are as many. */
  predicate DataTold(lines: seq<string>, d: string) {
    lines == (if |d| >= 8 then [INDENT + "Selector: 0x" + d[..8]] else []) + [INDENT + "Data: 0x" + d]
  }

  /** Calldata is told in full, digit by digit; behind a capital mark, the mark with it. */
  ghost predicate TellsData(lines: seq<string>, t: string, input: Bytes) {
    if t == "" || t == "0x" then input == [] && lines == [INDENT + "Data: (none)"]
    else exists d :: DataTold(lines, d) && if CapitalMark(t) then d == t && SpellsBytes(d[2..], input) else SpellsBytes(d, input)
  }

  lemma DataIsTold(data: string, input: Bytes)
    requires ReadBytes(Trim(data)) == Ok(input)
    ensures TellsData(Approval.DataLines(data), Trim(data), input)
  {
    var t := Trim(data);
    if NoCalldata(t) {
      NoCalldataIsEmpty(t);
    } else {
      ReadBytesExactly(t, input);
      ShownCalldata(t);
      MarkExactly(t);
      var d := TrimStartMatches(t, "0x");
      if CapitalMark(t) {
        MarkShows(t);
        assert d == t && Hexed(t) && SpellsBytes(d[2..], input) by {
          assert t[..2][0] == '0';
        }
      } else {
        assert SpellsBytes(d, input);
      }
      assert DataTold(Approval.DataLines(data), d);
    }
  }

  /** The selector line is the first four bytes, iff the calldata has no capital mark. */
  lemma SelectorExactly(t: string, d: string, input: Bytes)
    requires if CapitalMark(t) then |d| >= 2 && d == t && SpellsBytes(d[2..], input) else SpellsBytes(d, input)
    ensures SpellsBytes(d, input) <==> !CapitalMark(t)
    ensures |d| >= 8 ==> ((|input| >= 4 && SpellsBytes(d[..8], input[..4])) <==> !CapitalMark(t))
  {
    if CapitalMark(t) {
      MarkShows(t);
      assert DigitValue(d[1]) == 16;
      assert |d| >= 8 ==> d[..8][1] == d[1];
    } else if |d| >= 8 {
      assert forall k :: 0 <= k < 4 ==> d[..8][2 * k..2 * k + 2] == d[2 * k..2 * k + 2];
    }
  }

  // ---- one leg -------------------------------------------------------------------------

  /** An item's heading, with the number it has in the list. */
  ghost predicate TellsItem(line: string, n: nat, what: string) {
    exists d :: Spells(d, 10, n) && line == "  [" + d + "] " + what
  }

  ghost predicate TellsRecipient(line: string, t: string, to: Recipient) {
    match to
    case Call(address) => line == INDENT + "To: " + t && SpellsData(t, address) && |address| == 20
    case Create => line == INDENT + "** CONTRACT CREATION \U{2014} no recipient **"
  }

  ghost predicate TellsChain(line: string, n: nat, chainId: nat) {
    exists c :: Spells(c, 10, chainId) && TellsItem(line, n, "Transaction on chain " + c)
  }

  ghost predicate TellsQuantity(line: string, name: string, t: string, v: nat) {
    exists shown :: TellsNumber(shown, t, v) && line == INDENT + name + shown
  }

  ghost predicate TellsTx(lines: seq<string>, n: nat, tx: UnsignedTx, t: SigningTx) {
    && |lines| >= 6
    && TellsChain(lines[0], n, t.chainId)
    && TellsRecipient(lines[1], Trim(if tx.to.Some? then tx.to.value else ""), t.to)
    && TellsQuantity(lines[2], "Value: ", Trim(tx.value), t.value)
    && TellsQuantity(lines[3], "Nonce: ", Trim(tx.nonce), t.nonce)
    && TellsQuantity(lines[4], "Gas limit: ", Trim(tx.gasLimit), t.gasLimit)
    && TellsData(lines[5..], Trim(tx.data), t.input)
  }

  function Numbers(bytes: seq<bv8>): Bytes {
    seq(|bytes|, i requires 0 <= i < |bytes| => bytes[i] as nat)
  }

  ghost predicate TellsMessage(lines: seq<string>, n: nat, text: string, bytes: Bytes) {
    && |lines| == 3 && TellsItem(lines[0], n, "Sign text message")
    && lines[1] == INDENT + "Text: " + text
    && exists h :: SpellsBytes(h, bytes) && lines[2] == INDENT + "Bytes: 0x" + h
  }

  ghost predicate TellsDigest(lines: seq<string>, n: nat, purpose: string, digest: Bytes) {
    && |lines| == 4 && TellsItem(lines[0], n, "Sign an OPAQUE 32-byte digest")
    && lines[1] == INDENT + "Purpose (claimed by the requester): " + purpose
    && (exists h :: SpellsData(h, digest) && |digest| == 32 && lines[2] == INDENT + "Digest: " + h)
    && lines[3] == INDENT + "This signer cannot show you what this authorises."
  }

  /** These lines, as item `n`, tell what the leg puts under the signature. */
  ghost predicate Tells(env: Approval.Env, lines: seq<string>, n: nat, leg: Leg, payload: Payload) {
    match payload
    case TxPayload(t) => leg.Tx? && TellsTx(lines, n, leg.tx, t)
    case MessagePayload(text) => leg == Message(text) && TellsMessage(lines, n, text, Numbers(env.utf8(text)))
    case DigestPayload(d) => leg.Digest? && TellsDigest(lines, n, leg.purpose, d)
  }

  lemma ItemTold(n: nat, what: string)
    ensures TellsItem("  [" + Dec(n) + "] " + what, n, what)
  {
    DecSpells(n);
  }

  lemma QuantityTold(name: string, s: string, limit: nat, v: nat)
    requires limit > 0 && ReadNumber(Trim(s), limit) == Ok(v)
    ensures TellsQuantity(INDENT + name + Approval.NormNum(s), name, Trim(s), v)
  {
    NumberTold(s, limit, v);
  }

  lemma RecipientTold(tx: UnsignedTx, to: Recipient)
    requires ReadRecipient(ToText(tx), tx.create) == Ok(to)
    ensures TellsRecipient(Approval.RecipientLine(tx), ToText(tx), to)
  {
    RecipientExactly(ToText(tx), tx.create, to);
  }

  lemma ChainTold(n: nat, chainId: nat)
    ensures TellsChain(Item(n) + "Transaction on chain " + Dec(chainId), n, chainId)
  {
    DecSpells(chainId);
    ItemTold(n, "Transaction on chain " + Dec(chainId));
    InFront(Item(n), "Transaction on chain ", Dec(chainId));
  }

  lemma InFront(x: string, y: string, z: string)
    ensures x + y + z == x + (y + z)
  {
  }

  lemma TxTold(env: Approval.Env, n: nat, leg: Leg)
    requires leg.Tx? && Typed(leg.tx, leg.chainId).Ok?
    ensures Approval.LegLines(env, n, leg).Ok?
    ensures TellsTx(Approval.LegLines(env, n, leg).value, n, leg.tx, Typed(leg.tx, leg.chainId).value)
  {
    var lines := LinesOfTx(env, n, leg);
    CoreOfTyped(leg.tx, leg.chainId);
    CoreTold(lines, n, leg.tx, leg.chainId, Typed(leg.tx, leg.chainId).value);
  }

  lemma CoreTold(lines: seq<string>, n: nat, tx: UnsignedTx, chainId: nat, t: SigningTx)
    requires |lines| >= 6 && ReadsAs(tx, chainId, CoreOf(t))
    requires lines[0] == Item(n) + "Transaction on chain " + Dec(chainId)
    requires lines[1] == Approval.RecipientLine(tx)
    requires lines[2] == INDENT + "Value: " + Approval.NormNum(tx.value)
    requires lines[3] == INDENT + "Nonce: " + Approval.NormNum(tx.nonce)
    requires lines[4] == INDENT + "Gas limit: " + Approval.NormNum(tx.gasLimit)
    requires lines[5..] == Approval.DataLines(tx.data)
    ensures TellsTx(lines, n, tx, t)
  {
    ChainTold(n, chainId);
    RecipientTold(tx, t.to);
    QuantityTold("Value: ", tx.value, U256_LIMIT, t.value);
    QuantityTold("Nonce: ", tx.nonce, U128_LIMIT, t.nonce);
    QuantityTold("Gas limit: ", tx.gasLimit, U128_LIMIT, t.gasLimit);
    DataIsTold(tx.data, t.input);
  }

  /** Bytes are printed as they are read back. */
  lemma {:induction false} HexSpells(bytes: seq<bv8>)
    ensures HexDecode(Approval.HexOfBytes(bytes)) == Some(Numbers(bytes))
    ensures SpellsBytes(Approval.HexOfBytes(bytes), Numbers(bytes))
  {
    if bytes != [] {
      HexSpells(bytes[1..]);
      ByteSpells(bytes[0] as nat, Approval.HexOfBytes(bytes[1..]));
      assert Numbers(bytes) == [bytes[0] as nat] + Numbers(bytes[1..]);
    }
    HexDecodeExactly(Approval.HexOfBytes(bytes), Numbers(bytes));
  }

  lemma ByteSpells(n: nat, rest: string)
    requires n < 256 && HexDecode(rest).Some?
    ensures HexDecode([DigitChar(n / 16), DigitChar(n % 16)] + rest) == Some([n] + HexDecode(rest).value)
  {
    HalvesOfByte(n);
    DigitRoundTrip(n / 16);
    DigitRoundTrip(n % 16);
    PairDecodes(DigitChar(n / 16), DigitChar(n % 16), rest);
  }

  lemma MessageTold(env: Approval.Env, n: nat, text: string)
    requires Displayable(text)
    ensures Approval.LegLines(env, n, Message(text)).Ok?
    ensures TellsMessage(Approval.LegLines(env, n, Message(text)).value, n, text, Numbers(env.utf8(text)))
  {
    ItemTold(n, "Sign text message");
    HexSpells(env.utf8(text));
    assert Approval.LegLines(env, n, Message(text)).value[2] == INDENT + "Bytes: 0x" + Approval.HexOfBytes(env.utf8(text));
  }

  lemma DigestTold(env: Approval.Env, n: nat, digest: string, purpose: string)
    requires Displayable(purpose) && ReadDigest(Trim(digest)).Ok?
    ensures Approval.LegLines(env, n, Digest(digest, purpose)).Ok?
    ensures TellsDigest(Approval.LegLines(env, n, Digest(digest, purpose)).value, n, purpose, ReadDigest(Trim(digest)).value)
  {
    ItemTold(n, "Sign an OPAQUE 32-byte digest");
    ReadDigestExactly(Trim(digest), ReadDigest(Trim(digest)).value);
    assert Approval.LegLines(env, n, Digest(digest, purpose)).value[2] == INDENT + "Digest: " + Trim(digest);
  }

  /** A leg that signs is told, every field of it, as what is signed. */
  lemma LegTold(env: Approval.Env, n: nat, leg: Leg)
    requires Signs(leg)
    ensures Approval.LegLines(env, n, leg).Ok?
    ensures Tells(env, Approval.LegLines(env, n, leg).value, n, leg, PayloadOf(leg).value)
  {
    match leg {
      case Tx(_, _) => TxTold(env, n, leg);
      case Message(text) => MessageTold(env, n, text);
      case Digest(digest, purpose) => DigestTold(env, n, digest, purpose);
    }
  }

  // ---- the whole render ----------------------------------------------------------------

  /** That a leg signs, and that these lines, as item `n`, tell it. */
  ghost function TellingOf(env: Approval.Env): (seq<string>, nat, Leg) -> bool {
    (lines: seq<string>, n: nat, leg: Leg) => PayloadOf(leg).Ok? && Tells(env, lines, n, leg, PayloadOf(leg).value)
  }

  /** From `cuts[k]` up to `cuts[k + 1]` the lines tell leg `k`, as item `k + 1`. */
  ghost predicate TellsLegs(told: (seq<string>, nat, Leg) -> bool, lines: seq<string>, legs: seq<Leg>, cuts: seq<nat>) {
    && |cuts| == |legs| + 1 && cuts[|legs|] == |lines|
    && forall k :: 0 <= k < |legs| ==> TellsLeg(told, lines, legs, cuts, k)
  }

  ghost predicate TellsLeg(told: (seq<string>, nat, Leg) -> bool, lines: seq<string>, legs: seq<Leg>, cuts: seq<nat>, k: nat)
    requires k < |legs| && |cuts| == |legs| + 1
  {
    cuts[k] <= cuts[k + 1] <= |lines| && told(lines[cuts[k]..cuts[k + 1]], k + 1, legs[k])
  }

  lemma OneLegMore(told: (seq<string>, nat, Leg) -> bool, lines: seq<string>, more: seq<string>, legs: seq<Leg>, leg: Leg, cuts: seq<nat>)
    requires TellsLegs(told, lines, legs, cuts) && told(more, |legs| + 1, leg)
    ensures TellsLegs(told, lines + more, legs + [leg], cuts + [|lines + more|])
  {
    var n, all, after := |legs|, lines + more, cuts + [|lines + more|];
    forall k | 0 <= k < n + 1 ensures TellsLeg(told, all, legs + [leg], after, k) {
      if k < n {
        assert TellsLeg(told, lines, legs, cuts, k);
        assert all[cuts[k]..cuts[k + 1]] == lines[cuts[k]..cuts[k + 1]];
      } else {
        assert all[|lines|..|all|] == more;
      }
    }
  }

  /** Leg `k` is shown, and by lines that tell it. */
  ghost predicate IsTold(env: Approval.Env, told: (seq<string>, nat, Leg) -> bool, legs: seq<Leg>, k: nat)
    requires k < |legs|
  {
    Approval.LegLines(env, k + 1, legs[k]).Ok? && told(Approval.LegLines(env, k + 1, legs[k]).value, k + 1, legs[k])
  }

  ghost predicate AllTold(env: Approval.Env, told: (seq<string>, nat, Leg) -> bool, legs: seq<Leg>) {
    forall k {:trigger IsTold(env, told, legs, k)} :: 0 <= k < |legs| ==> IsTold(env, told, legs, k)
  }

  lemma InitTold(env: Approval.Env, told: (seq<string>, nat, Leg) -> bool, legs: seq<Leg>)
    requires AllTold(env, told, legs) && legs != []
    ensures AllTold(env, told, legs[..|legs| - 1])
  {
    var init := legs[..|legs| - 1];
    forall k | 0 <= k < |init| ensures IsTold(env, told, init, k) {
      assert IsTold(env, told, legs, k);
    }
  }

  lemma LastTold(env: Approval.Env, told: (seq<string>, nat, Leg) -> bool, legs: seq<Leg>) returns (more: seq<string>)
    requires AllTold(env, told, legs) && legs != [] && Approval.LegsLines(env, legs[..|legs| - 1]).Ok?
    ensures told(more, |legs|, legs[|legs| - 1])
    ensures Approval.LegsLines(env, legs) == Ok(Approval.LegsLines(env, legs[..|legs| - 1]).value + more)
  {
    assert IsTold(env, told, legs, |legs| - 1);
    more := Approval.LegLines(env, |legs|, legs[|legs| - 1]).value;
    Approval.LinesGoOn(env, legs);
  }

  lemma {:induction false} LegsTold(env: Approval.Env, told: (seq<string>, nat, Leg) -> bool, legs: seq<Leg>) returns (cuts: seq<nat>)
    requires AllTold(env, told, legs)
    ensures Approval.LegsLines(env, legs).Ok? && cuts != [] && cuts[0] == 0
    ensures TellsLegs(told, Approval.LegsLines(env, legs).value, legs, cuts)
  {
    if legs == [] {
      cuts := [0];
    } else {
      var n := |legs| - 1;
      InitTold(env, told, legs);
      var before := LegsTold(env, told, legs[..n]);
      var more := LastTold(env, told, legs);
      var lines := Approval.LegsLines(env, legs[..n]).value;
      cuts := before + [|lines + more|];
      LastOfLegs(told, lines, more, legs, before);
    }
  }

  lemma LastOfLegs(told: (seq<string>, nat, Leg) -> bool, lines: seq<string>, more: seq<string>, legs: seq<Leg>, cuts: seq<nat>)
    requires legs != [] && TellsLegs(told, lines, legs[..|legs| - 1], cuts) && told(more, |legs|, legs[|legs| - 1])
    ensures TellsLegs(told, lines + more, legs, cuts + [|lines + more|])
  {
    assert legs == legs[..|legs| - 1] + [legs[|legs| - 1]];
    OneLegMore(told, lines, more, legs[..|legs| - 1], legs[|legs| - 1], cuts);
  }

  lemma SigningIsTold(env: Approval.Env, legs: seq<Leg>)
    requires AllSign(legs)
    ensures AllTold(env, TellingOf(env), legs)
  {
    forall k | 0 <= k < |legs| ensures IsTold(env, TellingOf(env), legs, k) {
      assert Signs(legs[k]);
      LegTold(env, k + 1, legs[k]);
    }
  }

  /** Three lines in front: whose account it is, the commitment to echo, and how many items follow. */
  ghost predicate TellsBundle(lines: seq<string>, intent: Intent, bundleId: Approval.Hash) {
    && |lines| >= 3
    && lines[0] == "Account: " + Trim(intent.address)
    && (exists h :: SpellsBytes(h, Numbers(bundleId)) && lines[1] == "Commitment: " + h)
    && (exists d :: Spells(d, 10, |intent.legs|) && lines[2] == d + " item(s) to sign:")
  }

  /** A bundle that signs is shown, and its lines tell each leg in its order, and nothing besides. */
  lemma RenderTold(env: Approval.Env, intent: Intent, bundleId: Approval.Hash) returns (cuts: seq<nat>)
    requires AllSign(intent.legs)
    ensures Approval.RenderLines(env, intent, bundleId).Ok?
    ensures
      var lines := Approval.RenderLines(env, intent, bundleId).value;
      TellsBundle(lines, intent, bundleId) && cuts != [] && cuts[0] == 0 && TellsLegs(TellingOf(env), lines[3..], intent.legs, cuts)
  {
    SigningIsTold(env, intent.legs);
    cuts := LegsTold(env, TellingOf(env), intent.legs);
    var lines := Approval.RenderLines(env, intent, bundleId).value;
    HexSpells(bundleId);
    DecSpells(|intent.legs|);
    assert lines[1] == "Commitment: " + Approval.HexOfBytes(bundleId);
    assert lines[2] == Dec(|intent.legs|) + " item(s) to sign:";
    assert lines[3..] == Approval.LegsLines(env, intent.legs).value;
  }

  /** What the requester claims is one line: the purpose without the white space around it, or no line. */
  lemma ClaimTold(intent: Intent) returns (pre: string, claim: string, post: string)
    ensures intent.purpose == pre + claim + post && AllWhite(pre) && AllWhite(post) && Trimmed(claim)
    ensures Approval.ClaimLines(intent) == if claim == "" then [] else ["Purpose (claimed by the requester): " + claim]
  {
    pre, post := TrimExactly(intent.purpose);
    claim := Trim(intent.purpose);
  }

  // ---- what is signed is what was told -------------------------------------------------

  lemma {:induction false} ShownLegsAreDisplayable(env: Approval.Env, legs: seq<Leg>, k: nat)
    requires Approval.LegsLines(env, legs).Ok? && k < |legs| && legs[k].Digest?
    ensures Displayable(legs[k].purpose)
  {
    var n := |legs| - 1;
    if k < n {
      ShownLegsAreDisplayable(env, legs[..n], k);
    } else {
      ShownExactly(env, |legs|, legs[k]);
    }
  }

  lemma SignedAndShown(env: Approval.Env, signer: Approval.Signer, intent: Intent, bundleId: Approval.Hash, results: seq<string>)
    requires Approval.RenderLines(env, intent, bundleId).Ok? && Runs.SignaturesOf(env, signer, intent.legs, results)
    ensures AllSign(intent.legs)
  {
    forall k | 0 <= k < |intent.legs| ensures Signs(intent.legs[k]) {
      if intent.legs[k].Digest? {
        ShownLegsAreDisplayable(env, intent.legs, k);
      }
    }
  }

  /**
   In every run: a granted approval signs what the last display told, leg by leg. The lines that
   display returned tell, of each leg in its order, the very payload its result is a signature of.
   */
  lemma SignedIsTold(env: Approval.Env, calls: seq<Handles.Call>, states: seq<Approval.Ledger>, i: nat, h: string)
    returns (k: nat, shown: Approval.View, intent: Intent, signer: Approval.Signer, results: seq<string>, cuts: seq<nat>)
    requires Runs.Ran(env, calls, states) && i < |calls| && Runs.Grants(env, states[i], calls[i], h)
    ensures k < i && Runs.Shows(calls[k], h) && Runs.ReplyAt(env, calls, states, k) == Handles.Shown(Ok(shown))
    ensures Runs.At(states, i + 1, h).Some? && Runs.At(states, i + 1, h).value.results == Some(results)
    ensures intent == Runs.At(states, i + 1, h).value.intent
    ensures calls[i].vaults(intent.address, calls[i].password) == Ok(signer)
    ensures TellsBundle(shown.renderLines, intent, Approval.CommitmentOf(env, intent)) && cuts != [] && cuts[0] == 0
    ensures TellsLegs(TellingOf(env), shown.renderLines[3..], intent.legs, cuts)
    ensures Runs.SignaturesOf(env, signer, intent.legs, results)
  {
    Runs.SignedIsShown(env, calls, states, i, h);
    var x := Runs.At(states, i + 1, h).value;
    k := Runs.LastShown(env, calls, states, i).value;
    shown := Runs.ReplyAt(env, calls, states, k).view.value;
    intent, results := x.intent, x.results.value;
    signer := calls[i].vaults(intent.address, calls[i].password).value;
    SignedAndShown(env, signer, intent, Approval.CommitmentOf(env, intent), results);
    cuts := RenderTold(env, intent, Approval.CommitmentOf(env, intent));
  }

  /** What can be shown: any transaction, and text of any length and kind that `Displayable` lets through. */
  predicate Showable(leg: Leg) {
    match leg
    case Tx(_, _) => true
    case Message(text) => Displayable(text)
    case Digest(_, purpose) => Displayable(purpose)
  }

  lemma ShownExactly(env: Approval.Env, n: nat, leg: Leg)
    ensures Approval.LegLines(env, n, leg).Ok? <==> Showable(leg)
    ensures Approval.LegLines(env, n, leg).Err? ==> Approval.LegLines(env, n, leg) == Err(InvalidParams)
  {
  }

  ghost predicate AllShowable(legs: seq<Leg>) {
    forall k {:trigger Showable(legs[k])} :: 0 <= k < |legs| ==> Showable(legs[k])
  }

  /** A bundle is shown iff every leg of it can be. */
  lemma {:induction false} LegsShownExactly(env: Approval.Env, legs: seq<Leg>)
    ensures Approval.LegsLines(env, legs).Ok? <==> AllShowable(legs)
    ensures Approval.LegsLines(env, legs).Err? ==> Approval.LegsLines(env, legs) == Err(InvalidParams)
  {
    if legs != [] {
      LegsShownExactly(env, legs[..|legs| - 1]);
      LastShown(env, legs);
    }
  }

  lemma LastShown(env: Approval.Env, legs: seq<Leg>)
    requires legs != []
    requires Approval.LegsLines(env, legs[..|legs| - 1]).Ok? <==> AllShowable(legs[..|legs| - 1])
    requires Approval.LegsLines(env, legs[..|legs| - 1]).Err? ==> Approval.LegsLines(env, legs[..|legs| - 1]) == Err(InvalidParams)
    ensures Approval.LegsLines(env, legs).Ok? <==> AllShowable(legs)
    ensures Approval.LegsLines(env, legs).Err? ==> Approval.LegsLines(env, legs) == Err(InvalidParams)
  {
    AllShowableSnoc(legs[..|legs| - 1], legs[|legs| - 1]);
    assert legs == legs[..|legs| - 1] + [legs[|legs| - 1]];
    ShownExactly(env, |legs|, legs[|legs| - 1]);
    Approval.LinesGoOn(env, legs);
  }

  lemma AllShowableSnoc(init: seq<Leg>, last: Leg)
    ensures AllShowable(init + [last]) <==> AllShowable(init) && Showable(last)
  {
    var legs := init + [last];
    if AllShowable(legs) {
      assert Showable(legs[|init|]);
      forall k | 0 <= k < |init| ensures Showable(init[k]) {
        assert Showable(legs[k]);
      }
    }
    if AllShowable(init) && Showable(last) {
      forall k | 0 <= k < |legs| ensures Showable(legs[k]) {
        assert k < |init| ==> legs[k] == init[k];
      }
    }
  }

  // ---- what a text may hold ------------------------------------------------------------

  /** Characters that are displayed as nothing, or change how others are: marks, embeddings, isolates and joiners. */
  const UNSEEN: string := "\U{200B}\U{200C}\U{200D}\U{200E}\U{200F}\U{202A}\U{202B}\U{202C}\U{202D}\U{202E}\U{2060}\U{2066}\U{2067}\U{2068}\U{2069}\U{FEFF}"

  /** Tab, newline and return are the only control characters let through. */
  lemma MisleadsExactly(c: char)
    ensures Misleads(c) <==> (c < ' ' && c !in "\t\n\r") || (c as int >= 127 && c as int < 160) || c in UNSEEN
  {
  }

  /** Up to eight thousand and some bytes of any other character are shown. */
  lemma DisplayableExactly(text: string)
    ensures Displayable(text) <==>
      && Utf8Length(text) <= 8192
      && forall i :: 0 <= i < |text| ==>
           (text[i] >= ' ' || text[i] in "\t\n\r") && !(127 <= text[i] as int < 160) && text[i] !in UNSEEN
  {
    forall c ensures Misleads(c) <==> (c < ' ' && c !in "\t\n\r") || (c as int >= 127 && c as int < 160) || c in UNSEEN {
      MisleadsExactly(c);
    }
  }

  /** How many code points so many bytes of UTF-8 reach: seven bits, or six a byte after the first and five less one each in it. */
  function Reach(bytes: nat): nat {
    if bytes <= 1 then Power(2, 7) else Power(2, 5 * bytes + 1)
  }

  /** A character takes as few bytes as reach it. */
  lemma Utf8BytesExactly(c: char)
    ensures 1 <= Utf8Bytes(c) <= 4 && (c as int) < Reach(Utf8Bytes(c))
    ensures Utf8Bytes(c) > 1 ==> c as int >= Reach(Utf8Bytes(c) - 1)
  {
    assert Power(2, 5) == 32;
    assert Power(2, 7) == 128;
    assert Power(2, 10) == 1024;
    assert Power(2, 11) == 2048;
    assert Power(2, 15) == 32768;
    assert Power(2, 16) == 65536;
    assert Power(2, 20) == 0x10_0000;
    assert Power(2, 21) == 0x20_0000;
  }

  /** Text of plain ASCII, as long as it may be and of the characters it may have, is shown. */
  lemma {:induction false} AsciiIsShown(text: string)
    ensures AllAscii(text) ==> Utf8Length(text) == |text|
    ensures |text| <= Utf8Length(text) <= 4 * |text|
  {
    if text != "" {
      AsciiIsShown(text[1..]);
      Utf8BytesExactly(text[0]);
    }
  }
}
