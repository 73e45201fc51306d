/**
 What an approver is shown settles what is signed.

 The lines of `render` (rust-lib/src/approval.rs), read without the commitment: two bundles
 shown by the same lines sign the same things, leg by leg, but for the fees of a transaction,
 which are not among the lines.
 */
module Shown {
  import opened Base
  import opened Text
  import opened TxForm
  import opened Commitment
  import Approval

  lemma PrefixCancels(p: string, x: string, y: string)
    requires p + x == p + y
    ensures x == y
  {
    assert (p + x)[|p|..] == x && (p + y)[|p|..] == y;
  }

  // ---- numbers -------------------------------------------------------------------------

  lemma UnsignedHasNoSpace(s: string, radix: nat, limit: nat)
    requires radix <= 16 && ParseUnsigned(s, radix, limit).Some?
    ensures Free(s, ' ')
  {
    var digits := WithoutPlus(s);
    forall i | 0 <= i < |s| ensures s[i] != ' ' {
      if |digits| == |s| {
        assert s[i] == digits[i] && DigitValue(digits[i]) < radix;
      } else if i > 0 {
        assert s[i] == digits[i - 1] && DigitValue(digits[i - 1]) < radix;
      }
    }
  }

  lemma NumberHasNoSpace(t: string, limit: nat)
    requires ReadNumber(t, limit).Ok?
    ensures Free(t, ' ')
  {
    var hex := StripHexMark(t);
    if hex.Some? {
      UnsignedHasNoSpace(hex.value, 16, limit);
      assert t[..2] == "0x" || t[..2] == "0X";
      assert t == t[..2] + hex.value;
    } else if t != "" {
      UnsignedHasNoSpace(t, 10, limit);
    }
  }

  /** What follows a number's own text in its line: nothing, or a space and more. */
  predicate Aside(s: string) {
    s == "" || s[0] == ' '
  }

  lemma AsideShows(t: string, r: string)
    ensures Aside(r) && r != "" ==> !Free(t + r, ' ') && t + r == t + [' '] + r[1..]
  {
    if Aside(r) && r != "" {
      assert (t + r)[|t|] == ' ';
    }
  }

  lemma BeforeTheAside(t: string, u: string, r: string, s: string)
    requires Free(t, ' ') && Free(u, ' ') && Aside(r) && Aside(s) && t + r == u + s
    ensures t == u
  {
    AsideShows(t, r);
    AsideShows(u, s);
    if r != "" && s != "" {
      SeparatorCancels(t, u, r[1..], s[1..], ' ');
    } else {
      assert t + "" == t && u + "" == u;
    }
  }

  lemma NormNumText(s: string) returns (rest: string)
    requires Trim(s) != ""
    ensures Approval.NormNum(s) == Trim(s) + rest && Aside(rest)
  {
    var t := Trim(s);
    var hex := StripHexMark(t);
    if hex.Some? && ParseUnsigned(hex.value, 16, U128_LIMIT).Some? {
      rest := " (" + Dec(ParseUnsigned(hex.value, 16, U128_LIMIT).value) + ")";
      assert rest[0] == ' ';
      assert t + " (" + Dec(ParseUnsigned(hex.value, 16, U128_LIMIT).value) + ")" == t + rest;
    } else {
      rest := "";
      assert t + "" == t;
    }
  }

  /** A blank field is shown, and read, as zero. */
  lemma BlankIsZero(u: string, limit: nat)
    requires Approval.NormNum(u) == "0" && limit > 0
    ensures ReadNumber(Trim(u), limit) == Ok(0)
  {
    if Trim(u) != "" {
      var rest := NormNumText(u);
      assert |Trim(u)| == 1 && Trim(u)[0] == '0';
      assert Trim(u) == "0";
      assert StripHexMark("0").None?;
      assert NumeralValue("0", 10) == 0;
    }
  }

  lemma ShownNumber(s: string, u: string, limit: nat)
    requires limit > 0 && Approval.NormNum(s) == Approval.NormNum(u)
    requires ReadNumber(Trim(s), limit).Ok? && ReadNumber(Trim(u), limit).Ok?
    ensures ReadNumber(Trim(s), limit) == ReadNumber(Trim(u), limit)
  {
    if Trim(s) == "" {
      BlankIsZero(u, limit);
    } else if Trim(u) == "" {
      BlankIsZero(s, limit);
    } else {
      var r := NormNumText(s);
      var q := NormNumText(u);
      NumberHasNoSpace(Trim(s), limit);
      NumberHasNoSpace(Trim(u), limit);
      BeforeTheAside(Trim(s), Trim(u), r, q);
    }
  }

  // ---- calldata ------------------------------------------------------------------------

  lemma MarkShows(s: string)
    ensures StartsWith(s, "0x") ==> |s| >= 2 && s[1] == 'x'
    ensures StartsWith(s, "0X") ==> |s| >= 2 && s[1] == 'X'
  {
    if |s| >= 2 {
      assert s[..2][1] == s[1];
    }
  }

  lemma DecodableIsUnmarked(s: string)
    requires HexDecode(s).Some?
    ensures !StartsWith(s, "0x") && !StartsWith(s, "0X")
  {
    MarkShows(s);
    if |s| >= 2 {
      assert DigitValue(s[1]) < 16;
    }
  }

  /** What is left of calldata to show, and what of it is decoded. */
  lemma ShownCalldata(t: string)
    requires ReadBytes(t).Ok?
    ensures
      var d := TrimStartMatches(t, "0x");
      d == if StartsWith(t, "0X") then t else Unmarked(t)
  {
    DecodableIsUnmarked(Unmarked(t));
    if StartsWith(t, "0x") {
      MarkShows(t);
      assert TrimStartMatches(t[2..], "0x") == t[2..];
    }
  }

  lemma ShownData(s: string, u: string)
    requires ReadBytes(Trim(s)).Ok? && ReadBytes(Trim(u)).Ok?
    requires TrimStartMatches(Trim(s), "0x") == TrimStartMatches(Trim(u), "0x")
    ensures ReadBytes(Trim(s)) == ReadBytes(Trim(u))
  {
    ShownCalldata(Trim(s));
    ShownCalldata(Trim(u));
    DecodableIsUnmarked(Unmarked(Trim(s)));
    DecodableIsUnmarked(Unmarked(Trim(u)));
  }

  predicate NoCalldata(t: string) {
    t == "" || t == "0x"
  }

  lemma NoCalldataIsEmpty(t: string)
    requires NoCalldata(t)
    ensures ReadBytes(t) == Ok([])
  {
    if t == "0x" {
      assert t[..2] == "0x" && t[2..] == "";
      assert StripHexMark(t) == Some("");
    } else {
      assert StripHexMark(t).None?;
    }
  }

  lemma DataLinesShape(data: string)
    ensures
      var lines, t := Approval.DataLines(data), Trim(data);
      && |lines| >= 1
      && if NoCalldata(t) then lines[|lines| - 1] == Approval.INDENT + "Data: (none)"
         else lines[|lines| - 1] == Approval.INDENT + "Data: 0x" + TrimStartMatches(t, "0x")
  {
  }

  lemma NoneIsNotSome(d: string)
    ensures Approval.INDENT + "Data: (none)" != Approval.INDENT + "Data: 0x" + d
  {
    assert (Approval.INDENT + "Data: (none)")[12] == '(' && (Approval.INDENT + "Data: 0x" + d)[12] == '0';
  }

  lemma ShownDataLines(s: string, u: string)
    requires ReadBytes(Trim(s)).Ok? && ReadBytes(Trim(u)).Ok?
    requires Approval.DataLines(s) == Approval.DataLines(u)
    ensures ReadBytes(Trim(s)) == ReadBytes(Trim(u))
  {
    DataLinesShape(s);
    DataLinesShape(u);
    NoneIsNotSome(TrimStartMatches(Trim(s), "0x"));
    NoneIsNotSome(TrimStartMatches(Trim(u), "0x"));
    if NoCalldata(Trim(s)) {
      NoCalldataIsEmpty(Trim(s));
      NoCalldataIsEmpty(Trim(u));
    } else {
      PrefixCancels(Approval.INDENT + "Data: 0x", TrimStartMatches(Trim(s), "0x"), TrimStartMatches(Trim(u), "0x"));
      ShownData(s, u);
    }
  }

  // ---- one leg -------------------------------------------------------------------------

  lemma RecipientLinesDiffer(t: string)
    ensures Approval.INDENT + "To: " + t != Approval.INDENT + "** CONTRACT CREATION \U{2014} no recipient **"
  {
    assert (Approval.INDENT + "To: " + t)[6] == 'T' && (Approval.INDENT + "** CONTRACT CREATION \U{2014} no recipient **")[6] == '*';
  }

  lemma ShownRecipient(a: UnsignedTx, b: UnsignedTx)
    requires Approval.RecipientLine(a) == Approval.RecipientLine(b)
    requires ReadRecipient(ToText(a), a.create).Ok? && ReadRecipient(ToText(b), b.create).Ok?
    ensures ReadRecipient(ToText(a), a.create) == ReadRecipient(ToText(b), b.create)
  {
    RecipientLinesDiffer(ToText(a));
    RecipientLinesDiffer(ToText(b));
    if ToText(a) != "" && ToText(b) != "" {
      PrefixCancels(Approval.INDENT + "To: ", ToText(a), ToText(b));
    }
  }

  lemma ShownFields(a: UnsignedTx, b: UnsignedTx, chainId: nat, c: Core, d: Core)
    requires ReadsAs(a, chainId, c) && ReadsAs(b, chainId, d)
    requires Approval.RecipientLine(a) == Approval.RecipientLine(b)
    requires Approval.NormNum(a.value) == Approval.NormNum(b.value)
    requires Approval.NormNum(a.nonce) == Approval.NormNum(b.nonce)
    requires Approval.NormNum(a.gasLimit) == Approval.NormNum(b.gasLimit)
    requires Approval.DataLines(a.data) == Approval.DataLines(b.data)
    ensures c == d
  {
    ShownRecipient(a, b);
    ShownNumber(a.value, b.value, U256_LIMIT);
    ShownNumber(a.nonce, b.nonce, U128_LIMIT);
    ShownNumber(a.gasLimit, b.gasLimit, U128_LIMIT);
    ShownDataLines(a.data, b.data);
  }

  function Item(n: nat): string {
    "  [" + Dec(n) + "] "
  }

  lemma LinesOfTx(env: Approval.Env, n: nat, leg: Leg) returns (lines: seq<string>)
    requires leg.Tx?
    ensures Approval.LegLines(env, n, leg) == Ok(lines) && |lines| >= 6
    ensures lines[0] == Item(n) + "Transaction on chain " + Dec(leg.chainId)
    ensures lines[1] == Approval.RecipientLine(leg.tx)
    ensures lines[2] == Approval.INDENT + "Value: " + Approval.NormNum(leg.tx.value)
    ensures lines[3] == Approval.INDENT + "Nonce: " + Approval.NormNum(leg.tx.nonce)
    ensures lines[4] == Approval.INDENT + "Gas limit: " + Approval.NormNum(leg.tx.gasLimit)
    ensures lines[5..] == Approval.DataLines(leg.tx.data)
  {
    lines := Approval.LegLines(env, n, leg).value;
    DataLinesShape(leg.tx.data);
  }

  lemma ShownTx(env: Approval.Env, n: nat, a: Leg, b: Leg)
    requires a.Tx? && b.Tx? && Approval.LegLines(env, n, a) == Approval.LegLines(env, n, b)
    requires PayloadOf(a).Ok? && PayloadOf(b).Ok?
    ensures SameButFees(PayloadOf(a).value, PayloadOf(b).value)
  {
    var la := LinesOfTx(env, n, a);
    var lb := LinesOfTx(env, n, b);
    PrefixCancels(Item(n) + "Transaction on chain ", Dec(a.chainId), Dec(b.chainId));
    NumeralInjective(a.chainId, b.chainId, 10);
    PrefixCancels(Approval.INDENT + "Value: ", Approval.NormNum(a.tx.value), Approval.NormNum(b.tx.value));
    PrefixCancels(Approval.INDENT + "Nonce: ", Approval.NormNum(a.tx.nonce), Approval.NormNum(b.tx.nonce));
    PrefixCancels(Approval.INDENT + "Gas limit: ", Approval.NormNum(a.tx.gasLimit), Approval.NormNum(b.tx.gasLimit));
    CoreOfTyped(a.tx, a.chainId);
    CoreOfTyped(b.tx, b.chainId);
    ShownFields(a.tx, b.tx, a.chainId, CoreOf(PayloadOf(a).value.tx), CoreOf(PayloadOf(b).value.tx));
  }

  function Heading(leg: Leg): string {
    match leg
    case Tx(chainId, _) => "Transaction on chain " + Dec(chainId)
    case Message(_) => "Sign text message"
    case Digest(_, _) => "Sign an OPAQUE 32-byte digest"
  }

  lemma HeadingsTellKinds(a: Leg, b: Leg)
    requires Heading(a) == Heading(b)
    ensures a.Tx? == b.Tx? && a.Message? == b.Message?
  {
    assert a.Tx? ==> Heading(a)[0] == 'T';
    assert b.Tx? ==> Heading(b)[0] == 'T';
    assert "Sign text message"[5] == 't' && "Sign an OPAQUE 32-byte digest"[5] == 'a';
  }

  /** A leg's lines: a numbered heading, then lines that are set in further. */
  predicate Block(lines: seq<string>, n: nat, leg: Leg) {
    && |lines| > 0 && lines[0] == Item(n) + Heading(leg)
    && forall i :: 0 < i < |lines| ==> IsInner(lines[i])
  }

  predicate IsInner(line: string) {
    |line| > 2 && line[2] == ' '
  }

  lemma ItemsAreOuter(n: nat, rest: string)
    ensures !IsInner(Item(n) + rest)
  {
    assert (Item(n) + rest)[2] == '[';
  }

  lemma Indented(text: string)
    ensures IsInner(Approval.INDENT + text)
  {
    assert (Approval.INDENT + text)[2] == Approval.INDENT[2];
  }

  lemma TxBlock(env: Approval.Env, n: nat, leg: Leg)
    requires leg.Tx?
    ensures Approval.LegLines(env, n, leg).Ok? && Block(Approval.LegLines(env, n, leg).value, n, leg)
  {
    var lines := LinesOfTx(env, n, leg);
    var tx := leg.tx;
    assert lines[0] == Item(n) + Heading(leg);
    RecipientIsInner(tx);
    Indented("Value: " + Approval.NormNum(tx.value));
    Indented("Nonce: " + Approval.NormNum(tx.nonce));
    Indented("Gas limit: " + Approval.NormNum(tx.gasLimit));
    DataIsInner(tx.data);
    forall i | 0 < i < |lines| ensures IsInner(lines[i]) {
      if i >= 5 {
        assert lines[i] == lines[5..][i - 5];
      }
    }
  }

  lemma RecipientIsInner(tx: UnsignedTx)
    ensures IsInner(Approval.RecipientLine(tx))
  {
    Indented("To: " + ToText(tx));
  }

  lemma DataIsInner(data: string)
    ensures forall i :: 0 <= i < |Approval.DataLines(data)| ==> IsInner(Approval.DataLines(data)[i])
  {
    var d := TrimStartMatches(Trim(data), "0x");
    Indented("Data: 0x" + d);
    if |d| >= 8 {
      Indented("Selector: 0x" + d[..8]);
    }
  }

  lemma MessageBlock(env: Approval.Env, n: nat, leg: Leg)
    requires leg.Message? && Approval.LegLines(env, n, leg).Ok?
    ensures Block(Approval.LegLines(env, n, leg).value, n, leg)
  {
    Indented("Text: " + leg.text);
    Indented("Bytes: 0x" + Approval.HexOfBytes(env.utf8(leg.text)));
  }

  lemma DigestBlock(env: Approval.Env, n: nat, leg: Leg)
    requires leg.Digest? && Approval.LegLines(env, n, leg).Ok?
    ensures Block(Approval.LegLines(env, n, leg).value, n, leg)
  {
    Indented("Purpose (claimed by the requester): " + leg.purpose);
    Indented("Digest: " + Trim(leg.digest));
    Indented("This signer cannot show you what this authorises.");
  }

  lemma LegsAreBlocks(env: Approval.Env, n: nat, leg: Leg)
    requires Approval.LegLines(env, n, leg).Ok?
    ensures Block(Approval.LegLines(env, n, leg).value, n, leg)
  {
    match leg {
      case Tx(_, _) => TxBlock(env, n, leg);
      case Message(_) => MessageBlock(env, n, leg);
      case Digest(_, _) => DigestBlock(env, n, leg);
    }
  }

  lemma ShownMessage(env: Approval.Env, n: nat, a: Leg, b: Leg)
    requires a.Message? && b.Message? && Approval.LegLines(env, n, a).Ok?
    requires Approval.LegLines(env, n, a) == Approval.LegLines(env, n, b)
    ensures a == b
  {
    assert Approval.LegLines(env, n, a).value[1] == Approval.LegLines(env, n, b).value[1];
    PrefixCancels(Approval.INDENT + "Text: ", a.text, b.text);
  }

  lemma ShownDigest(env: Approval.Env, n: nat, a: Leg, b: Leg)
    requires a.Digest? && b.Digest? && Approval.LegLines(env, n, a).Ok?
    requires Approval.LegLines(env, n, a) == Approval.LegLines(env, n, b)
    ensures PayloadOf(a) == PayloadOf(b)
  {
    assert Approval.LegLines(env, n, a).value[2] == Approval.LegLines(env, n, b).value[2];
    PrefixCancels(Approval.INDENT + "Digest: ", Trim(a.digest), Trim(b.digest));
  }

  /** Two legs shown by the same lines, where both sign, sign the same thing but for fees. */
  lemma ShownLeg(env: Approval.Env, n: nat, a: Leg, b: Leg)
    requires Approval.LegLines(env, n, a).Ok? && Approval.LegLines(env, n, a) == Approval.LegLines(env, n, b)
    requires PayloadOf(a).Ok? && PayloadOf(b).Ok?
    ensures SameButFees(PayloadOf(a).value, PayloadOf(b).value)
  {
    LegsAreBlocks(env, n, a);
    LegsAreBlocks(env, n, b);
    PrefixCancels(Item(n), Heading(a), Heading(b));
    HeadingsTellKinds(a, b);
    match a {
      case Tx(_, _) => ShownTx(env, n, a, b);
      case Message(_) => ShownMessage(env, n, a, b);
      case Digest(_, _) => ShownDigest(env, n, a, b);
    }
  }

  // ---- a bundle ------------------------------------------------------------------------

  predicate InnerAfter(lines: seq<string>, k: nat) {
    forall i :: k < i < |lines| ==> IsInner(lines[i])
  }

  lemma BlockStarts(xs: seq<string>, la: seq<string>, n: nat, a: Leg)
    requires Block(la, n, a)
    ensures !IsInner((xs + la)[|xs|]) && InnerAfter(xs + la, |xs|)
    ensures (xs + la)[..|xs|] == xs && (xs + la)[|xs|..] == la
  {
    ItemsAreOuter(n, Heading(a));
    assert (xs + la)[|xs|] == la[0];
    forall i | |xs| < i < |xs + la| ensures IsInner((xs + la)[i]) {
      assert (xs + la)[i] == la[i - |xs|];
    }
  }

  /** The last block starts at the last line that is not set in. */
  lemma LastBlocks(xs: seq<string>, ys: seq<string>, la: seq<string>, lb: seq<string>, n: nat, a: Leg, b: Leg)
    requires xs + la == ys + lb && Block(la, n, a) && Block(lb, n, b)
    ensures xs == ys && la == lb
  {
    BlockStarts(xs, la, n, a);
    BlockStarts(ys, lb, n, b);
    assert |xs| == |ys|;
  }

  lemma {:induction false} ShownLegs(env: Approval.Env, a: seq<Leg>, b: seq<Leg>, i: nat)
    requires Approval.LegsLines(env, a).Ok? && Approval.LegsLines(env, a) == Approval.LegsLines(env, b)
    requires |a| == |b| && i < |a| && PayloadOf(a[i]).Ok? && PayloadOf(b[i]).Ok?
    ensures SameButFees(PayloadOf(a[i]).value, PayloadOf(b[i]).value)
  {
    var n := |a| - 1;
    var la, lb := Approval.LegLines(env, |a|, a[n]), Approval.LegLines(env, |a|, b[n]);
    var xs, ys := Approval.LegsLines(env, a[..n]), Approval.LegsLines(env, b[..n]);
    LegsAreBlocks(env, |a|, a[n]);
    LegsAreBlocks(env, |a|, b[n]);
    LastBlocks(xs.value, ys.value, la.value, lb.value, |a|, a[n], b[n]);
    if i == n {
      ShownLeg(env, |a|, a[n], b[n]);
    } else {
      assert a[..n][i] == a[i] && b[..n][i] == b[i];
      ShownLegs(env, a[..n], b[..n], i);
    }
  }

  /**
   What is shown is what is signed. Two bundles rendered to the same lines name the same
   account and have as many legs, and each pair of legs that both sign, sign the same thing:
   the same text, the same digest, or transactions alike in everything but their fees.
   */
  lemma LinesDetermineTheSignatures(env: Approval.Env, a: Intent, b: Intent, x: Approval.Hash, y: Approval.Hash)
    requires Approval.RenderLines(env, a, x).Ok? && Approval.RenderLines(env, a, x) == Approval.RenderLines(env, b, y)
    ensures Trim(a.address) == Trim(b.address) && |a.legs| == |b.legs|
    ensures forall i :: 0 <= i < |a.legs| && PayloadOf(a.legs[i]).Ok? && PayloadOf(b.legs[i]).Ok? ==>
      SameButFees(PayloadOf(a.legs[i]).value, PayloadOf(b.legs[i]).value)
  {
    var la, lb := Approval.RenderLines(env, a, x).value, Approval.RenderLines(env, b, y).value;
    TopLines(env, a, x);
    TopLines(env, b, y);
    PrefixCancels("Account: ", Trim(a.address), Trim(b.address));
    CountsAgree(|a.legs|, |b.legs|);
    forall i | 0 <= i < |a.legs| && PayloadOf(a.legs[i]).Ok? && PayloadOf(b.legs[i]).Ok?
      ensures SameButFees(PayloadOf(a.legs[i]).value, PayloadOf(b.legs[i]).value)
    {
      ShownLegs(env, a.legs, b.legs, i);
    }
  }

  lemma TopLines(env: Approval.Env, a: Intent, x: Approval.Hash)
    requires Approval.RenderLines(env, a, x).Ok?
    ensures
      var lines := Approval.RenderLines(env, a, x).value;
      && |lines| >= 3 && lines[0] == "Account: " + Trim(a.address)
      && lines[2] == Dec(|a.legs|) + " item(s) to sign:"
      && Approval.LegsLines(env, a.legs) == Ok(lines[3..])
  {
  }

  lemma CountsAgree(m: nat, n: nat)
    requires Dec(m) + " item(s) to sign:" == Dec(n) + " item(s) to sign:"
    ensures m == n
  {
    var tail := " item(s) to sign:";
    assert |Dec(m)| == |Dec(n)|;
    assert (Dec(m) + tail)[..|Dec(m)|] == Dec(m) && (Dec(n) + tail)[..|Dec(n)|] == Dec(n);
    NumeralInjective(m, n, 10);
  }

  // ---- what is not shown ---------------------------------------------------------------

  function WithFee(tx: UnsignedTx, fee: string): UnsignedTx {
    tx.(maxFeePerGas := fee)
  }

  lemma FeeIsNotShown(env: Approval.Env, n: nat, chainId: nat, tx: UnsignedTx, fee: string)
    ensures Approval.LegLines(env, n, Tx(chainId, WithFee(tx, fee))) == Approval.LegLines(env, n, Tx(chainId, tx))
  {
  }

  lemma FeeIsSigned(tx: UnsignedTx, chainId: nat, fee: string)
    requires Typed(tx, chainId).Ok? && Typed(tx, chainId).value.Eip1559? && ReadNumber(Trim(fee), U128_LIMIT).Ok?
    ensures Typed(WithFee(tx, fee), chainId) ==
      Ok(Typed(tx, chainId).value.(maxFeePerGas := ReadNumber(Trim(fee), U128_LIMIT).value))
  {
    var to, value, input := ReadRecipient(ToText(tx), tx.create), ReadNumber(Trim(tx.value), U256_LIMIT), ReadBytes(Trim(tx.data));
    var nonce, gasLimit, legacy := ReadU64(Trim(tx.nonce)), ReadU64(Trim(tx.gasLimit)), ReadFeeMode(Trim(tx.feeMode));
    assert to.Ok? && value.Ok? && nonce.Ok? && gasLimit.Ok? && input.Ok? && legacy == Ok(false);
    assert ToText(WithFee(tx, fee)) == ToText(tx);
  }

  /** Fees are signed and not shown: the same lines, and two transactions that differ in nothing else. */
  lemma FeesAreNotAmongTheLines(env: Approval.Env, n: nat, chainId: nat, tx: UnsignedTx, f: string, g: string)
    requires Typed(tx, chainId).Ok? && Typed(tx, chainId).value.Eip1559?
    requires ReadNumber(Trim(f), U128_LIMIT).Ok? && ReadNumber(Trim(g), U128_LIMIT).Ok?
    requires ReadNumber(Trim(f), U128_LIMIT) != ReadNumber(Trim(g), U128_LIMIT)
    ensures
      var a, b := Tx(chainId, WithFee(tx, f)), Tx(chainId, WithFee(tx, g));
      && Approval.LegLines(env, n, a) == Approval.LegLines(env, n, b)
      && PayloadOf(a).Ok? && PayloadOf(b).Ok? && PayloadOf(a) != PayloadOf(b)
      && SameButFees(PayloadOf(a).value, PayloadOf(b).value)
  {
    FeeIsNotShown(env, n, chainId, tx, f);
    FeeIsNotShown(env, n, chainId, tx, g);
    FeeIsSigned(tx, chainId, f);
    FeeIsSigned(tx, chainId, g);
  }
}
