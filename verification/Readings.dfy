/**
 What a submitted field says, told apart from how it is read.

 Grammars for the numbers, bytes and addresses of a transaction, and the proof that `parse_u128`,
 `parse_u64`, `parse_u256`, `parse_address`, `parse_bytes`, `parse_b256` and `sign_parsed_tx` of
 rust-lib/src/keystore.rs read exactly what is written: a transaction is signed iff every
 field of it is what its text spells.
 */
module Readings {
  import opened Base
  import opened Text
  import opened TxForm

  // ---- digits --------------------------------------------------------------------------

  const SMALL_DIGITS: string := "0123456789abcdef"
  const LARGE_DIGITS: string := "0123456789ABCDEF"

  /** The sixteen digits, in either case, and no others. */
  lemma DigitExactly(c: char, d: nat)
    requires d < 16
    ensures DigitValue(c) == d <==> c == SMALL_DIGITS[d] || c == LARGE_DIGITS[d]
    ensures DigitChar(d) == SMALL_DIGITS[d]
  {
  }

  function Power(radix: nat, n: nat): nat {
    if n == 0 then 1 else radix * Power(radix, n - 1)
  }

  lemma PowerTimes(radix: nat, n: nat, d: nat)
    ensures d * Power(radix, n) * radix == d * Power(radix, n + 1)
  {
    var p := Power(radix, n);
    assert d * p * radix == d * (radix * p);
  }

  /** A numeral is written most significant digit first. */
  lemma {:induction false} FirstDigitWeighs(c: char, s: string, radix: nat)
    ensures NumeralValue([c] + s, radix) == DigitValue(c) * Power(radix, |s|) + NumeralValue(s, radix)
  {
    if s == "" {
      assert [c] + s == "" + [c];
      NumeralAppend("", c, radix);
    } else {
      var init, last := s[..|s| - 1], s[|s| - 1];
      FirstDigitWeighs(c, init, radix);
      assert [c] + s == ([c] + init) + [last];
      NumeralAppend([c] + init, last, radix);
      PowerTimes(radix, |init|, DigitValue(c));
      Distributes(DigitValue(c) * Power(radix, |init|), NumeralValue(init, radix), radix);
    }
  }

  lemma Distributes(x: nat, y: nat, radix: nat)
    ensures (x + y) * radix == x * radix + y * radix
  {
  }

  /** What the limits of the integer types are. */
  lemma Limits()
    ensures U64_LIMIT == Power(16, 16) && U128_LIMIT == Power(16, 16) * Power(16, 16)
    ensures U256_LIMIT == U128_LIMIT * U128_LIMIT
  {
    assert Power(16, 4) == 0x1_0000;
    assert Power(16, 8) == 0x1_0000_0000;
    assert Power(16, 12) == 0x1_0000_0000_0000;
    assert Power(16, 16) == 0x1_0000_0000_0000_0000;
  }

  // ---- bytes ---------------------------------------------------------------------------

  /** Two digits a byte, the larger one first. */
  predicate SpellsBytes(s: string, bytes: Bytes) {
    && |s| == 2 * |bytes| && AllDigitsOf(s, 16)
    && forall k {:trigger bytes[k]} :: 0 <= k < |bytes| ==> NumeralValue(s[2 * k..2 * k + 2], 16) == bytes[k]
  }

  lemma TwoDigits(a: char, b: char)
    ensures NumeralValue([a, b], 16) == DigitValue(a) * 16 + DigitValue(b)
  {
    assert [a, b] == [a] + [b];
    FirstDigitWeighs(a, [b], 16);
    assert "" + [b] == [b];
    NumeralAppend("", b, 16);
    assert Power(16, 1) == 16;
  }

  lemma SpellsRest(s: string, bytes: Bytes)
    requires |s| == 2 * |bytes| && bytes != []
    ensures SpellsBytes(s, bytes) <==>
      DigitValue(s[0]) < 16 && DigitValue(s[1]) < 16 && DigitValue(s[0]) * 16 + DigitValue(s[1]) == bytes[0] && SpellsBytes(s[2..], bytes[1..])
  {
    var rest, more := s[2..], bytes[1..];
    TwoDigits(s[0], s[1]);
    assert s[..2] == [s[0], s[1]] && s[2 * 0..2 * 0 + 2] == s[..2];
    assert AllDigitsOf(s, 16) <==> DigitValue(s[0]) < 16 && DigitValue(s[1]) < 16 && AllDigitsOf(rest, 16) by {
      assert forall i :: 2 <= i < |s| ==> s[i] == rest[i - 2];
    }
    assert forall k :: 0 <= k < |more| ==> rest[2 * k..2 * k + 2] == s[2 * (k + 1)..2 * (k + 1) + 2];
    assert forall k :: 0 <= k < |more| ==> more[k] == bytes[k + 1];
    if SpellsBytes(rest, more) && NumeralValue(s[..2], 16) == bytes[0] {
      forall k | 0 <= k < |bytes| ensures NumeralValue(s[2 * k..2 * k + 2], 16) == bytes[k] {
        if k > 0 {
          assert NumeralValue(rest[2 * (k - 1)..2 * (k - 1) + 2], 16) == more[k - 1];
        }
      }
    }
  }

  /** Hexadecimal is decoded to the bytes it spells, and nothing else is decoded. */
  lemma {:induction false} HexDecodeExactly(s: string, bytes: Bytes)
    ensures HexDecode(s) == Some(bytes) <==> SpellsBytes(s, bytes)
  {
    if s == "" {
      assert |s| == 2 * |bytes| ==> bytes == [];
    } else if |s| > 1 {
      if |s| == 2 * |bytes| {
        SpellsRest(s, bytes);
        HexDecodeExactly(s[2..], bytes[1..]);
        assert bytes == [bytes[0]] + bytes[1..];
      }
      if HexDecode(s) == Some(bytes) {
        HexDecodeExactly(s[2..], bytes[1..]);
        assert |s| == 2 * |bytes|;
      }
    }
  }

  predicate Hexed(t: string) {
    |t| >= 2 && t[0] == '0' && (t[1] == 'x' || t[1] == 'X')
  }

  lemma MarkExactly(t: string)
    ensures StripHexMark(t) == if Hexed(t) then Some(t[2..]) else None
  {
    if |t| >= 2 {
      assert t[..2] == [t[0], t[1]];
    }
  }

  /** Bytes, bare or behind `0x` or `0X`. */
  predicate SpellsData(t: string, bytes: Bytes) {
    SpellsBytes(if Hexed(t) then t[2..] else t, bytes)
  }

  lemma DataExactly(t: string, bytes: Bytes)
    ensures HexDecode(Unmarked(t)) == Some(bytes) <==> SpellsData(t, bytes)
  {
    MarkExactly(t);
    HexDecodeExactly(Unmarked(t), bytes);
  }

  lemma SpelledOnce(t: string, a: Bytes, b: Bytes)
    requires SpellsData(t, a) && SpellsData(t, b)
    ensures a == b
  {
    DataExactly(t, a);
    DataExactly(t, b);
  }

  lemma ReadBytesExactly(t: string, bytes: Bytes)
    ensures ReadBytes(t) == Ok(bytes) <==> SpellsData(t, bytes)
    ensures ReadBytes(t).Err? ==> ReadBytes(t) == Err(InvalidParams)
  {
    DataExactly(t, bytes);
  }

  lemma ReadAddressExactly(t: string, bytes: Bytes)
    ensures ReadAddress(t) == Ok(bytes) <==> SpellsData(t, bytes) && |bytes| == 20
    ensures ReadAddress(t).Err? ==> ReadAddress(t) == Err(InvalidAddress)
  {
    DataExactly(t, bytes);
  }

  lemma ReadDigestExactly(t: string, bytes: Bytes)
    ensures ReadDigest(t) == Ok(bytes) <==> SpellsData(t, bytes) && |bytes| == 32
    ensures ReadDigest(t).Err? ==> ReadDigest(t) == Err(InvalidParams)
  {
    DataExactly(t, bytes);
  }

  // ---- bytes, printed and read back ----------------------------------------------------

  /** Each byte as two of these sixteen digits. */
  function Printed(bytes: Bytes, digits: string): string
    requires |digits| == 16 && forall k :: 0 <= k < |bytes| ==> bytes[k] < 256
  {
    if bytes == [] then "" else [digits[bytes[0] / 16], digits[bytes[0] % 16]] + Printed(bytes[1..], digits)
  }

  /** Printed in either case, bare or behind a mark, bytes are read back. */
  lemma BytesRoundTrip(bytes: Bytes, digits: string, mark: string)
    requires digits == SMALL_DIGITS || digits == LARGE_DIGITS
    requires mark == "" || mark == "0x" || mark == "0X"
    requires forall k :: 0 <= k < |bytes| ==> bytes[k] < 256
    ensures ReadBytes(mark + Printed(bytes, digits)) == Ok(bytes)
  {
    forall d | 0 <= d < 16 ensures DigitValue(digits[d]) == d {
      DigitExactly(digits[d], d);
    }
    PrintedDecodes(bytes, digits);
    MarkedDecodes(mark, Printed(bytes, digits));
  }

  predicate InOrder(digits: string) {
    |digits| == 16 && forall d :: 0 <= d < 16 ==> DigitValue(digits[d]) == d
  }

  lemma MarkedDecodes(mark: string, s: string)
    requires mark == "" || mark == "0x" || mark == "0X"
    requires HexDecode(s).Some?
    ensures HexDecode(Unmarked(mark + s)) == HexDecode(s)
  {
    var t := mark + s;
    MarkExactly(t);
    if mark == "" {
      assert t == s;
      if |s| >= 2 {
        assert DigitValue(s[1]) < 16;
      }
    } else {
      assert t[2..] == s && t[0] == '0' && t[1] == mark[1];
    }
  }

  lemma PairDecodes(a: char, b: char, rest: string)
    requires DigitValue(a) < 16 && DigitValue(b) < 16 && HexDecode(rest).Some?
    ensures HexDecode([a, b] + rest) == Some([DigitValue(a) * 16 + DigitValue(b)] + HexDecode(rest).value)
  {
    assert ([a, b] + rest)[2..] == rest;
  }

  lemma {:induction false} PrintedDecodes(bytes: Bytes, digits: string)
    requires InOrder(digits) && forall k :: 0 <= k < |bytes| ==> bytes[k] < 256
    ensures HexDecode(Printed(bytes, digits)) == Some(bytes)
  {
    if bytes != [] {
      var b, rest := bytes[0], bytes[1..];
      PrintedDecodes(rest, digits);
      HalvesOfByte(b);
      PairDecodes(digits[b / 16], digits[b % 16], Printed(rest, digits));
      assert bytes == [b] + rest;
    }
  }

  lemma HalvesOfByte(b: nat)
    requires b < 256
    ensures b / 16 < 16 && b / 16 * 16 + b % 16 == b
  {
  }

  // ---- numbers -------------------------------------------------------------------------

  predicate Spells(s: string, radix: nat, v: nat) {
    s != "" && AllDigitsOf(s, radix) && NumeralValue(s, radix) == v
  }

  /** Digits, behind one `+` or none. */
  predicate SpellsUnsigned(s: string, radix: nat, v: nat) {
    Spells(s, radix, v) || (s != "" && s[0] == '+' && Spells(s[1..], radix, v))
  }

  /** Nothing at all, which is zero; hexadecimal behind a mark; or decimal. */
  predicate SpellsNumber(t: string, v: nat) {
    if t == "" then v == 0
    else if Hexed(t) then SpellsUnsigned(t[2..], 16, v)
    else SpellsUnsigned(t, 10, v)
  }

  lemma UnsignedExactly(s: string, radix: nat, limit: nat, v: nat)
    requires radix <= 16
    ensures ParseUnsigned(s, radix, limit) == Some(v) <==> SpellsUnsigned(s, radix, v) && v < limit
  {
    if s != "" && s[0] == '+' {
      assert DigitValue(s[0]) == 16;
    }
  }

  lemma ReadNumberExactly(t: string, limit: nat, v: nat)
    requires limit > 0
    ensures ReadNumber(t, limit) == Ok(v) <==> SpellsNumber(t, v) && v < limit
    ensures ReadNumber(t, limit).Err? ==> ReadNumber(t, limit) == Err(InvalidParams)
  {
    MarkExactly(t);
    if Hexed(t) {
      UnsignedExactly(t[2..], 16, limit, v);
    } else {
      UnsignedExactly(t, 10, limit, v);
    }
  }

  lemma ReadU64Exactly(t: string, v: nat)
    ensures ReadU64(t) == Ok(v) <==> SpellsNumber(t, v) && v < U64_LIMIT
    ensures ReadU64(t).Err? ==> ReadU64(t) == Err(InvalidParams)
  {
    ReadNumberExactly(t, U128_LIMIT, v);
  }

  // ---- the whole transaction -----------------------------------------------------------

  /** A transaction is sent to an address that is spelled out, or creates a contract and says so. */
  predicate SpellsRecipient(t: string, create: bool, to: Recipient) {
    match to
    case Call(address) => t != "" && !create && |address| == 20 && SpellsData(t, address)
    case Create => t == "" && create
  }

  predicate SpellsFees(tx: UnsignedTx, t: SigningTx) {
    match t
    case Legacy(_, _, gasPrice, _, _, _, _) =>
      Trim(tx.feeMode) == "legacy" && SpellsNumber(Trim(tx.gasPrice), gasPrice) && gasPrice < U128_LIMIT
    case Eip1559(_, _, maxFee, maxPriority, _, _, _, _) =>
      && (Trim(tx.feeMode) == "" || Trim(tx.feeMode) == "eip1559")
      && SpellsNumber(Trim(tx.maxFeePerGas), maxFee) && maxFee < U128_LIMIT
      && SpellsNumber(Trim(tx.maxPriorityFeePerGas), maxPriority) && maxPriority < U128_LIMIT
  }

  /** Every field of this transaction is what the text of a submission spells. */
  predicate SpellsTx(tx: UnsignedTx, chainId: nat, t: SigningTx) {
    && t.chainId == chainId && !tx.accessList
    && SpellsRecipient(Trim(if tx.to.Some? then tx.to.value else ""), tx.create, t.to)
    && SpellsNumber(Trim(tx.value), t.value) && t.value < U256_LIMIT
    && SpellsNumber(Trim(tx.nonce), t.nonce) && t.nonce < U64_LIMIT
    && SpellsNumber(Trim(tx.gasLimit), t.gasLimit) && t.gasLimit < U64_LIMIT
    && SpellsData(Trim(tx.data), t.input)
    && SpellsFees(tx, t)
  }

  lemma RecipientExactly(t: string, create: bool, to: Recipient)
    ensures ReadRecipient(t, create) == Ok(to) <==> SpellsRecipient(t, create, to)
  {
    ReadAddressExactly(t, if to.Call? then to.address else []);
  }

  lemma LegacyExactly(tx: UnsignedTx, chainId: nat, t: SigningTx)
    requires t.Legacy?
    ensures Typed(tx, chainId) == Ok(t) <==> SpellsTx(tx, chainId, t)
  {
    CoreExactly(tx, chainId, t);
    ReadNumberExactly(Trim(tx.gasPrice), U128_LIMIT, t.gasPrice);
  }

  lemma Eip1559Exactly(tx: UnsignedTx, chainId: nat, t: SigningTx)
    requires t.Eip1559?
    ensures Typed(tx, chainId) == Ok(t) <==> SpellsTx(tx, chainId, t)
  {
    CoreExactly(tx, chainId, t);
    ReadNumberExactly(Trim(tx.maxFeePerGas), U128_LIMIT, t.maxFeePerGas);
    ReadNumberExactly(Trim(tx.maxPriorityFeePerGas), U128_LIMIT, t.maxPriorityFeePerGas);
  }

  /** What is not a fee. */
  lemma CoreExactly(tx: UnsignedTx, chainId: nat, t: SigningTx)
    ensures ReadRecipient(ToText(tx), tx.create) == Ok(t.to) <==> SpellsRecipient(ToText(tx), tx.create, t.to)
    ensures ReadNumber(Trim(tx.value), U256_LIMIT) == Ok(t.value) <==> SpellsNumber(Trim(tx.value), t.value) && t.value < U256_LIMIT
    ensures ReadU64(Trim(tx.nonce)) == Ok(t.nonce) <==> SpellsNumber(Trim(tx.nonce), t.nonce) && t.nonce < U64_LIMIT
    ensures ReadU64(Trim(tx.gasLimit)) == Ok(t.gasLimit) <==> SpellsNumber(Trim(tx.gasLimit), t.gasLimit) && t.gasLimit < U64_LIMIT
    ensures ReadBytes(Trim(tx.data)) == Ok(t.input) <==> SpellsData(Trim(tx.data), t.input)
  {
    RecipientExactly(ToText(tx), tx.create, t.to);
    ReadNumberExactly(Trim(tx.value), U256_LIMIT, t.value);
    ReadU64Exactly(Trim(tx.nonce), t.nonce);
    ReadU64Exactly(Trim(tx.gasLimit), t.gasLimit);
    ReadBytesExactly(Trim(tx.data), t.input);
  }

  /** A submission is signed as a transaction iff that is what it spells, field by field. */
  lemma SignedAsSpelled(tx: UnsignedTx, chainId: nat, t: SigningTx)
    ensures Typed(tx, chainId) == Ok(t) <==> SpellsTx(tx, chainId, t)
  {
    if t.Legacy? {
      LegacyExactly(tx, chainId, t);
    } else {
      Eip1559Exactly(tx, chainId, t);
    }
  }

  /** A refusal names the address iff there is to be one, and what is there is none. */
  lemma RefusalsExactly(tx: UnsignedTx, chainId: nat)
    requires Typed(tx, chainId).Err?
    ensures
      var to := Trim(if tx.to.Some? then tx.to.value else "");
      Typed(tx, chainId) ==
        Err(if to != "" && !tx.create && (forall address :: SpellsData(to, address) ==> |address| != 20) then InvalidAddress
            else InvalidParams)
  {
    var to := ToText(tx);
    NoAddress(to);
    RecipientRefusal(to, tx.create);
    if ReadRecipient(to, tx.create).Ok? {
      RefusalOf(tx, chainId);
    }
  }

  lemma NoAddress(t: string)
    ensures ReadAddress(t).Err? <==> forall address :: SpellsData(t, address) ==> |address| != 20
  {
    if ReadAddress(t).Ok? {
      ReadAddressExactly(t, ReadAddress(t).value);
    } else {
      forall address | SpellsData(t, address) ensures |address| != 20 {
        ReadAddressExactly(t, address);
      }
    }
  }

  lemma RecipientRefusal(t: string, create: bool)
    ensures t != "" && !create ==> ReadRecipient(t, create) == (if ReadAddress(t).Err? then Err(InvalidAddress) else Ok(Call(ReadAddress(t).value)))
    ensures ReadRecipient(t, create).Err? && (t == "" || create) ==> ReadRecipient(t, create) == Err(InvalidParams)
  {
  }

  predicate Complains<T>(r: Result<T>) {
    r.Err? ==> r.error == InvalidParams
  }

  lemma NumberComplains(t: string)
    ensures Complains(ReadNumber(t, U128_LIMIT)) && Complains(ReadNumber(t, U256_LIMIT)) && Complains(ReadU64(t))
  {
  }

  lemma RefusalOf(tx: UnsignedTx, chainId: nat)
    requires ReadRecipient(ToText(tx), tx.create).Ok?
    ensures Complains(Typed(tx, chainId))
  {
    NumberComplains(Trim(tx.value));
    NumberComplains(Trim(tx.nonce));
    NumberComplains(Trim(tx.gasLimit));
    NumberComplains(Trim(tx.gasPrice));
    NumberComplains(Trim(tx.maxFeePerGas));
    NumberComplains(Trim(tx.maxPriorityFeePerGas));
    assert Complains(ReadBytes(Trim(tx.data))) && Complains(ReadFeeMode(Trim(tx.feeMode)));
  }
}
