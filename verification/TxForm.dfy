/**
 From the text a caller submits to the transaction that is signed.

 Models `parse_u128`, `parse_u64`, `parse_u256`, `parse_address`, `parse_bytes`, `parse_b256`
 and the field checks of `sign_parsed_tx` in rust-lib/src/keystore.rs. The signature itself
 is a parameter elsewhere; what is decided here is which transaction it covers.
 */
module TxForm {
  import opened Base
  import opened Text

  const U64_LIMIT: nat := 0x1_0000_0000_0000_0000
  const U128_LIMIT: nat := U64_LIMIT * U64_LIMIT
  const U256_LIMIT: nat := U128_LIMIT * U128_LIMIT
  const ADDRESS_BYTES: nat := 20

  /** Bytes, as numbers below 256. */
  type Bytes = seq<nat>

  datatype UnsignedTx = UnsignedTx(
    to: Option<string>,
    create: bool,
    accessList: bool, // whether a non-null access list is present
    value: string,
    nonce: string,
    gasLimit: string,
    data: string,
    feeMode: string,
    maxFeePerGas: string,
    maxPriorityFeePerGas: string,
    gasPrice: string)

  datatype Recipient = Call(address: Bytes) | Create

  /** The transaction a signature covers. */
  datatype SigningTx =
    | Legacy(chainId: nat, nonce: nat, gasPrice: nat, gasLimit: nat, to: Recipient, value: nat, input: Bytes)
    | Eip1559(chainId: nat, nonce: nat, maxFeePerGas: nat, maxPriorityFeePerGas: nat, gasLimit: nat,
              to: Recipient, value: nat, input: Bytes)

  // ---- reading one trimmed field -----------------------------------------------------------

  function StripHexMark(t: string): Option<string> {
    var small := StripPrefix(t, "0x");
    if small.Some? then small else StripPrefix(t, "0X")
  }

  /** `from_str_radix` of an unsigned integer type: one leading `+` is allowed. */
  function ParseUnsigned(s: string, radix: nat, limit: nat): Option<nat> {
    var digits := WithoutPlus(s);
    if digits == "" || !AllDigitsOf(digits, radix) then None
    else
      var v := NumeralValue(digits, radix);
      if v < limit then Some(v) else None
  }

  /** A number, as hexadecimal after `0x` or as decimal; nothing at all is zero. */
  function ReadNumber(t: string, limit: nat): Result<nat> {
    if t == "" then Ok(0)
    else
      var hex := StripHexMark(t);
      var v := if hex.Some? then ParseUnsigned(hex.value, 16, limit) else ParseUnsigned(t, 10, limit);
      if v.Some? then Ok(v.value) else Err(InvalidParams)
  }

  /** Narrowed by refusal, never by truncation. */
  function ReadU64(t: string): (r: Result<nat>)
    ensures r.Ok? ==> r.value < U64_LIMIT
  {
    var wide :- ReadNumber(t, U128_LIMIT);
    if wide < U64_LIMIT then Ok(wide) else Err(InvalidParams)
  }

  /** `hex::decode`: pairs of digits of either case. */
  function HexDecode(s: string): Option<Bytes> {
    if s == "" then Some([])
    else if |s| == 1 || DigitValue(s[0]) >= 16 || DigitValue(s[1]) >= 16 then None
    else
      var rest := HexDecode(s[2..]);
      if rest.None? then None else Some([DigitValue(s[0]) * 16 + DigitValue(s[1])] + rest.value)
  }

  function Unmarked(t: string): string {
    var hex := StripHexMark(t);
    if hex.Some? then hex.value else t
  }

  function ReadBytes(t: string): Result<Bytes> {
    var v := HexDecode(Unmarked(t));
    if v.Some? then Ok(v.value) else Err(InvalidParams)
  }

  /** Bytes of one exact length: an address is 20 of them, a digest 32. */
  function ReadExactly(t: string, n: nat, e: Error): Result<Bytes> {
    var v := HexDecode(Unmarked(t));
    if v.None? || |v.value| != n then Err(e) else Ok(v.value)
  }

  function ReadAddress(t: string): Result<Bytes> {
    ReadExactly(t, ADDRESS_BYTES, InvalidAddress)
  }

  function ReadDigest(t: string): Result<Bytes> {
    ReadExactly(t, 32, InvalidParams)
  }

  /** Whether the fee mode is legacy. A closed set. */
  function ReadFeeMode(t: string): Result<bool> {
    if t == "" || t == "eip1559" then Ok(false)
    else if t == "legacy" then Ok(true)
    else Err(InvalidParams)
  }

  // ---- the whole transaction ---------------------------------------------------------------

  function ToText(tx: UnsignedTx): string {
    Trim(if tx.to.Some? then tx.to.value else "")
  }

  /** A recipient and an explicit creation exclude each other, and one of them is required. */
  function ReadRecipient(t: string, create: bool): Result<Recipient> {
    if t != "" && create then Err(InvalidParams)
    else if t != "" then
      var address :- ReadAddress(t);
      Ok(Call(address))
    else if create then Ok(Create)
    else Err(InvalidParams)
  }

  /** What `sign_parsed_tx` signs, or its refusal, with its checks in its order. */
  function Typed(tx: UnsignedTx, chainId: nat): Result<SigningTx> {
    var to :- ReadRecipient(ToText(tx), tx.create);
    if tx.accessList then Err(InvalidParams)
    else
      var value :- ReadNumber(Trim(tx.value), U256_LIMIT);
      var nonce :- ReadU64(Trim(tx.nonce));
      var gasLimit :- ReadU64(Trim(tx.gasLimit));
      var input :- ReadBytes(Trim(tx.data));
      var legacy :- ReadFeeMode(Trim(tx.feeMode));
      if legacy then
        var gasPrice :- ReadNumber(Trim(tx.gasPrice), U128_LIMIT);
        Ok(Legacy(chainId, nonce, gasPrice, gasLimit, to, value, input))
      else
        var maxFee :- ReadNumber(Trim(tx.maxFeePerGas), U128_LIMIT);
        var maxPriority :- ReadNumber(Trim(tx.maxPriorityFeePerGas), U128_LIMIT);
        Ok(Eip1559(chainId, nonce, maxFee, maxPriority, gasLimit, to, value, input))
  }

  // ---- readable text is ASCII and its case carries nothing ---------------------------------

  lemma HexMarkIgnoresCase(t: string)
    ensures StripHexMark(t).Some? == StripHexMark(AsciiLower(t)).Some?
    ensures StripHexMark(t).Some? ==>
      && StripHexMark(AsciiLower(t)).value == AsciiLower(StripHexMark(t).value)
      && |t| >= 2 && StripHexMark(t).value == t[2..] && IsAscii(t[0]) && IsAscii(t[1])
  {
    if |t| >= 2 {
      MarkIgnoresCase(t[0], t[1]);
      AsciiLowerSlice(t, 2, |t|);
      assert t[..2] == [t[0], t[1]];
      assert AsciiLower(t)[..2] == [LowerChar(t[0]), LowerChar(t[1])];
    }
  }

  lemma MarkIgnoresCase(a: char, b: char)
    ensures (a == '0' && (b == 'x' || b == 'X')) <==> (LowerChar(a) == '0' && LowerChar(b) == 'x')
    ensures LowerChar(b) != 'X'
  {
  }

  function WithoutPlus(s: string): string {
    if s != "" && s[0] == '+' then s[1..] else s
  }

  lemma WithoutPlusIgnoresCase(s: string)
    ensures WithoutPlus(AsciiLower(s)) == AsciiLower(WithoutPlus(s))
  {
    if s != "" {
      assert LowerChar(s[0]) == '+' <==> s[0] == '+';
      AsciiLowerSlice(s, 1, |s|);
    }
  }

  lemma UnsignedIgnoresCase(s: string, radix: nat, limit: nat)
    requires radix <= 16
    ensures ParseUnsigned(AsciiLower(s), radix, limit) == ParseUnsigned(s, radix, limit)
  {
    WithoutPlusIgnoresCase(s);
    NumeralValueIgnoresCase(WithoutPlus(s), radix);
  }

  lemma UnsignedIsAscii(s: string, radix: nat, limit: nat)
    requires radix <= 16
    requires ParseUnsigned(s, radix, limit).Some?
    ensures AllAscii(s)
  {
    var digits := WithoutPlus(s);
    forall i | 0 <= i < |s| ensures IsAscii(s[i]) {
      if |digits| == |s| {
        assert s[i] == digits[i] && DigitValue(digits[i]) < radix;
      } else if i > 0 {
        assert s[i] == digits[i - 1] && DigitValue(digits[i - 1]) < radix;
      }
    }
  }

  lemma AsciiAfterMark(t: string)
    requires |t| >= 2 && IsAscii(t[0]) && IsAscii(t[1]) && AllAscii(t[2..])
    ensures AllAscii(t)
  {
    forall i | 0 <= i < |t| ensures IsAscii(t[i]) {
      if i >= 2 {
        assert IsAscii(t[2..][i - 2]);
      }
    }
  }

  lemma NumberIgnoresCase(t: string, limit: nat)
    ensures ReadNumber(AsciiLower(t), limit) == ReadNumber(t, limit)
    ensures ReadNumber(t, limit).Ok? ==> AllAscii(t)
  {
    HexMarkIgnoresCase(t);
    var hex := StripHexMark(t);
    if hex.Some? {
      UnsignedIgnoresCase(hex.value, 16, limit);
      if ReadNumber(t, limit).Ok? {
        UnsignedIsAscii(hex.value, 16, limit);
        AsciiAfterMark(t);
      }
    } else {
      UnsignedIgnoresCase(t, 10, limit);
      if ReadNumber(t, limit).Ok? && t != "" {
        UnsignedIsAscii(t, 10, limit);
      }
    }
  }

  lemma {:induction false} HexDecodeIgnoresCase(s: string)
    ensures HexDecode(AsciiLower(s)) == HexDecode(s)
    ensures HexDecode(s).Some? ==> AllAscii(s)
  {
    if |s| >= 2 {
      var low := AsciiLower(s);
      AsciiLowerSlice(s, 2, |s|);
      HexDecodeIgnoresCase(s[2..]);
      assert low != "" && |low| != 1 && low[2..] == AsciiLower(s[2..]);
      assert DigitValue(low[0]) == DigitValue(s[0]) && DigitValue(low[1]) == DigitValue(s[1]);
      if HexDecode(s).Some? {
        AsciiAfterMark(s);
      }
    }
  }

  lemma BytesIgnoreCase(t: string)
    ensures HexDecode(Unmarked(AsciiLower(t))) == HexDecode(Unmarked(t))
    ensures HexDecode(Unmarked(t)).Some? ==> AllAscii(t)
  {
    HexMarkIgnoresCase(t);
    HexDecodeIgnoresCase(Unmarked(t));
    if StripHexMark(t).Some? && HexDecode(Unmarked(t)).Some? {
      AsciiAfterMark(t);
    }
  }

  // ---- fields that agree up to case sign the same transaction ------------------------------

  /**
   What is asked of `str::to_lowercase`: on ASCII text it is the ASCII fold, and it never
   makes up a unit separator or a newline out of text that holds none.
   */
  ghost predicate Lowercases(lower: string -> string) {
    && (forall s {:trigger lower(s)} :: AllAscii(s) ==> lower(s) == AsciiLower(s))
    && (forall s {:trigger lower(s)} :: Free(s, '\U{1F}') ==> Free(lower(s), '\U{1F}'))
    && (forall s {:trigger lower(s)} :: Free(s, '\n') ==> Free(lower(s), '\n'))
  }

  lemma SameNumber(lower: string -> string, t: string, u: string, limit: nat)
    requires Lowercases(lower) && lower(t) == lower(u)
    requires ReadNumber(t, limit).Ok? && ReadNumber(u, limit).Ok?
    ensures ReadNumber(t, limit) == ReadNumber(u, limit)
  {
    NumberIgnoresCase(t, limit);
    NumberIgnoresCase(u, limit);
  }

  lemma SameBytes(lower: string -> string, t: string, u: string)
    requires Lowercases(lower) && lower(t) == lower(u)
    requires HexDecode(Unmarked(t)).Some? && HexDecode(Unmarked(u)).Some?
    ensures HexDecode(Unmarked(t)) == HexDecode(Unmarked(u))
  {
    BytesIgnoreCase(t);
    BytesIgnoreCase(u);
  }

  /** ASCII text without capitals is its own lowercase. */
  predicate Settled(s: string) {
    forall i :: 0 <= i < |s| ==> IsAscii(s[i]) && !('A' <= s[i] <= 'Z')
  }

  lemma LowerFixesSettled(lower: string -> string, s: string)
    requires Lowercases(lower) && Settled(s)
    ensures lower(s) == s
  {
    assert AllAscii(s);
    assert AsciiLower(s) == s;
  }

  lemma FeeModeSettled(t: string)
    requires ReadFeeMode(t).Ok?
    ensures Settled(t)
  {
  }

  lemma SameFeeMode(lower: string -> string, t: string, u: string)
    requires Lowercases(lower) && lower(t) == lower(u)
    requires ReadFeeMode(t).Ok? && ReadFeeMode(u).Ok?
    ensures t == u
  {
    FeeModeSettled(t);
    FeeModeSettled(u);
    LowerFixesSettled(lower, t);
    LowerFixesSettled(lower, u);
  }

  function FlagText(b: bool): string {
    if b then "true" else "false"
  }

  /** The ten fields the commitment covers, in its order, trimmed and lowercased. */
  function Fields(lower: string -> string, tx: UnsignedTx): seq<string> {
    [lower(ToText(tx)), lower(Trim(FlagText(tx.create))), lower(Trim(tx.value)),
     lower(Trim(tx.nonce)), lower(Trim(tx.gasLimit)), lower(Trim(tx.data)), lower(Trim(tx.feeMode)),
     lower(Trim(tx.maxFeePerGas)), lower(Trim(tx.maxPriorityFeePerGas)), lower(Trim(tx.gasPrice))]
  }

  lemma FlagTextSettled(b: bool)
    ensures Settled(FlagText(b)) && Trim(FlagText(b)) == FlagText(b)
  {
    TrimKeepsBounded(FlagText(b));
  }

  lemma SameCreate(lower: string -> string, a: bool, b: bool)
    requires Lowercases(lower)
    requires lower(Trim(FlagText(a))) == lower(Trim(FlagText(b)))
    ensures a == b
  {
    FlagTextSettled(a);
    FlagTextSettled(b);
    LowerFixesSettled(lower, FlagText(a));
    LowerFixesSettled(lower, FlagText(b));
  }

  lemma SameRecipient(lower: string -> string, t: string, u: string, create: bool)
    requires Lowercases(lower) && lower(t) == lower(u)
    requires ReadRecipient(t, create).Ok? && ReadRecipient(u, create).Ok?
    ensures ReadRecipient(t, create) == ReadRecipient(u, create)
  {
    if !create {
      SameBytes(lower, t, u);
    }
  }

  ghost predicate Agree(lower: string -> string, a: UnsignedTx, b: UnsignedTx) {
    && lower(ToText(a)) == lower(ToText(b))
    && lower(Trim(FlagText(a.create))) == lower(Trim(FlagText(b.create)))
    && lower(Trim(a.value)) == lower(Trim(b.value))
    && lower(Trim(a.nonce)) == lower(Trim(b.nonce))
    && lower(Trim(a.gasLimit)) == lower(Trim(b.gasLimit))
    && lower(Trim(a.data)) == lower(Trim(b.data))
    && lower(Trim(a.feeMode)) == lower(Trim(b.feeMode))
    && lower(Trim(a.maxFeePerGas)) == lower(Trim(b.maxFeePerGas))
    && lower(Trim(a.maxPriorityFeePerGas)) == lower(Trim(b.maxPriorityFeePerGas))
    && lower(Trim(a.gasPrice)) == lower(Trim(b.gasPrice))
  }

  lemma FieldsAgree(lower: string -> string, a: UnsignedTx, b: UnsignedTx)
    requires Fields(lower, a) == Fields(lower, b)
    ensures Agree(lower, a, b)
  {
    var f, g := Fields(lower, a), Fields(lower, b);
    assert f[0] == g[0] && f[1] == g[1] && f[2] == g[2] && f[3] == g[3] && f[4] == g[4];
    assert f[5] == g[5] && f[6] == g[6] && f[7] == g[7] && f[8] == g[8] && f[9] == g[9];
  }

  /** Two submissions that agree on the committed fields and both sign, sign one transaction. */
  lemma FieldsDetermineTheTransaction(lower: string -> string, a: UnsignedTx, b: UnsignedTx, chainId: nat)
    requires Lowercases(lower)
    requires Agree(lower, a, b)
    requires Typed(a, chainId).Ok? && Typed(b, chainId).Ok?
    ensures Typed(a, chainId) == Typed(b, chainId)
  {
    SameCreate(lower, a.create, b.create);
    SameRecipient(lower, ToText(a), ToText(b), a.create);
    SameNumber(lower, Trim(a.value), Trim(b.value), U256_LIMIT);
    SameNumber(lower, Trim(a.nonce), Trim(b.nonce), U128_LIMIT);
    SameNumber(lower, Trim(a.gasLimit), Trim(b.gasLimit), U128_LIMIT);
    SameBytes(lower, Trim(a.data), Trim(b.data));
    SameFeeMode(lower, Trim(a.feeMode), Trim(b.feeMode));
    SameFees(lower, a, b, ReadFeeMode(Trim(a.feeMode)).value);
  }

  /** The fee fields the mode reads; the others may differ, or not read at all. */
  predicate FeesRead(tx: UnsignedTx, legacy: bool) {
    if legacy then ReadNumber(Trim(tx.gasPrice), U128_LIMIT).Ok?
    else ReadNumber(Trim(tx.maxFeePerGas), U128_LIMIT).Ok? && ReadNumber(Trim(tx.maxPriorityFeePerGas), U128_LIMIT).Ok?
  }

  lemma SameFees(lower: string -> string, a: UnsignedTx, b: UnsignedTx, legacy: bool)
    requires Lowercases(lower)
    requires lower(Trim(a.gasPrice)) == lower(Trim(b.gasPrice))
    requires lower(Trim(a.maxFeePerGas)) == lower(Trim(b.maxFeePerGas))
    requires lower(Trim(a.maxPriorityFeePerGas)) == lower(Trim(b.maxPriorityFeePerGas))
    requires FeesRead(a, legacy) && FeesRead(b, legacy)
    ensures legacy ==> ReadNumber(Trim(a.gasPrice), U128_LIMIT) == ReadNumber(Trim(b.gasPrice), U128_LIMIT)
    ensures !legacy ==>
      && ReadNumber(Trim(a.maxFeePerGas), U128_LIMIT) == ReadNumber(Trim(b.maxFeePerGas), U128_LIMIT)
      && ReadNumber(Trim(a.maxPriorityFeePerGas), U128_LIMIT) == ReadNumber(Trim(b.maxPriorityFeePerGas), U128_LIMIT)
  {
    if legacy {
      SameNumber(lower, Trim(a.gasPrice), Trim(b.gasPrice), U128_LIMIT);
    } else {
      SameNumber(lower, Trim(a.maxFeePerGas), Trim(b.maxFeePerGas), U128_LIMIT);
      SameNumber(lower, Trim(a.maxPriorityFeePerGas), Trim(b.maxPriorityFeePerGas), U128_LIMIT);
    }
  }

  // ---- a transaction without its fees ------------------------------------------------------

  /** What a transaction does, whatever it pays for being included. */
  datatype Core = Core(chainId: nat, nonce: nat, gasLimit: nat, to: Recipient, value: nat, input: Bytes)

  function CoreOf(t: SigningTx): Core {
    match t
    case Legacy(chainId, nonce, _, gasLimit, to, value, input) => Core(chainId, nonce, gasLimit, to, value, input)
    case Eip1559(chainId, nonce, _, _, gasLimit, to, value, input) => Core(chainId, nonce, gasLimit, to, value, input)
  }

  /** Everything a transaction's core is read from. */
  predicate ReadsAs(tx: UnsignedTx, chainId: nat, c: Core) {
    && c.chainId == chainId
    && ReadRecipient(ToText(tx), tx.create) == Ok(c.to)
    && ReadNumber(Trim(tx.value), U256_LIMIT) == Ok(c.value)
    && ReadNumber(Trim(tx.nonce), U128_LIMIT) == Ok(c.nonce)
    && ReadNumber(Trim(tx.gasLimit), U128_LIMIT) == Ok(c.gasLimit)
    && ReadBytes(Trim(tx.data)) == Ok(c.input)
  }

  lemma U64Reads(t: string)
    requires ReadU64(t).Ok?
    ensures ReadNumber(t, U128_LIMIT) == ReadU64(t)
  {
  }

  lemma CoreOfTyped(tx: UnsignedTx, chainId: nat)
    requires Typed(tx, chainId).Ok?
    ensures ReadsAs(tx, chainId, CoreOf(Typed(tx, chainId).value))
  {
    var to, value, input := ReadRecipient(ToText(tx), tx.create), ReadNumber(Trim(tx.value), U256_LIMIT), ReadBytes(Trim(tx.data));
    var nonce, gasLimit := ReadU64(Trim(tx.nonce)), ReadU64(Trim(tx.gasLimit));
    assert to.Ok? && value.Ok? && nonce.Ok? && gasLimit.Ok? && input.Ok?;
    assert CoreOf(Typed(tx, chainId).value) == Core(chainId, nonce.value, gasLimit.value, to.value, value.value, input.value);
    U64Reads(Trim(tx.nonce));
    U64Reads(Trim(tx.gasLimit));
  }
}
