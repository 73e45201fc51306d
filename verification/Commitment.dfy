/**
 The canonical text a commitment is taken over, and what two equal texts have in common.

 Models `Leg`, `Intent` and `commitment` of rust-lib/src/approval.rs. The hash is a
 parameter of the approval module; everything here is about its preimage.
 */
module Commitment {
  import opened Base
  import opened Text
  import opened TxForm

  const UNIT_SEPARATOR: char := '\U{1F}'
  const HEADER: string := "logos-keystore-approval-v1\n"

  datatype Leg =
    | Tx(chainId: nat, tx: UnsignedTx)
    | Message(text: string)
    | Digest(digest: string, purpose: string)

  datatype Intent = Intent(address: string, purpose: string, legs: seq<Leg>)

  // ---- the encoding ------------------------------------------------------------------------

  function Tag(leg: Leg): string {
    match leg
    case Tx(_, _) => "tx"
    case Message(_) => "message"
    case Digest(_, _) => "digest"
  }

  function FieldsText(fields: seq<string>): string {
    if fields == [] then "" else fields[0] + [UNIT_SEPARATOR] + FieldsText(fields[1..])
  }

  function DigestText(lower: string -> string, digest: string): string {
    lower(TrimStartMatches(Trim(digest), "0x"))
  }

  function LegBody(lower: string -> string, leg: Leg): string {
    match leg
    case Tx(chainId, tx) => Dec(chainId) + "\n" + FieldsText(Fields(lower, tx))
    case Message(text) => text
    case Digest(digest, purpose) => DigestText(lower, digest) + [UNIT_SEPARATOR] + purpose
  }

  function LegsText(lower: string -> string, legs: seq<Leg>): string {
    if legs == [] then ""
    else Tag(legs[0]) + "\n" + (LegBody(lower, legs[0]) + "\n" + LegsText(lower, legs[1..]))
  }

  function Encode(lower: string -> string, intent: Intent): string {
    HEADER + (lower(Trim(intent.address)) + "\n" + LegsText(lower, intent.legs))
  }

  // ---- the loop that feeds the hasher ------------------------------------------------------

  lemma {:induction false} FieldsTextSnoc(fields: seq<string>, last: string)
    ensures FieldsText(fields + [last]) == FieldsText(fields) + (last + [UNIT_SEPARATOR])
  {
    if fields == [] {
      assert FieldsText([last]) == last + [UNIT_SEPARATOR] + FieldsText([]);
    } else {
      FieldsTextSnoc(fields[1..], last);
      assert (fields + [last])[1..] == fields[1..] + [last];
    }
  }

  lemma {:induction false} LegsTextSnoc(lower: string -> string, legs: seq<Leg>, last: Leg)
    ensures LegsText(lower, legs + [last]) == LegsText(lower, legs) + (Tag(last) + "\n" + (LegBody(lower, last) + "\n"))
  {
    if legs == [] {
      assert (legs + [last])[1..] == [];
      assert LegBody(lower, last) + "\n" + "" == LegBody(lower, last) + "\n";
    } else {
      var head, body, tail := Tag(legs[0]) + "\n", LegBody(lower, legs[0]) + "\n", LegsText(lower, legs[1..]);
      var end := Tag(last) + "\n" + (LegBody(lower, last) + "\n");
      calc {
        LegsText(lower, legs + [last]);
        { assert (legs + [last])[0] == legs[0]; }
        head + (body + LegsText(lower, (legs + [last])[1..]));
        { assert (legs + [last])[1..] == legs[1..] + [last]; LegsTextSnoc(lower, legs[1..], last); }
        head + (body + (tail + end));
        { Regroup(head, body, tail, end); }
        head + (body + tail) + end;
      }
    }
  }

  method FeedFields(fields: seq<string>) returns (fed: string)
    ensures fed == FieldsText(fields)
  {
    fed := "";
    for i := 0 to |fields|
      invariant fed == FieldsText(fields[..i])
    {
      FieldsTextSnoc(fields[..i], fields[i]);
      assert fields[..i + 1] == fields[..i] + [fields[i]];
      fed := fed + (fields[i] + [UNIT_SEPARATOR]);
    }
    assert fields[..|fields|] == fields;
  }

  /** The bytes `commitment` hands the hasher, update by update. */
  method Feed(lower: string -> string, intent: Intent) returns (fed: string)
    ensures fed == Encode(lower, intent)
  {
    var head := HEADER + (lower(Trim(intent.address)) + "\n");
    var legs := "";
    for i := 0 to |intent.legs|
      invariant legs == LegsText(lower, intent.legs[..i])
    {
      var leg := intent.legs[i];
      var body;
      match leg {
        case Tx(chainId, tx) =>
          body := FeedFields(Fields(lower, tx));
          body := Dec(chainId) + "\n" + body;
        case Message(text) =>
          body := text;
        case Digest(digest, purpose) =>
          body := DigestText(lower, digest) + [UNIT_SEPARATOR] + purpose;
      }
      LegsTextSnoc(lower, intent.legs[..i], leg);
      assert intent.legs[..i + 1] == intent.legs[..i] + [leg];
      legs := legs + (Tag(leg) + "\n" + (body + "\n"));
    }
    assert intent.legs[..|intent.legs|] == intent.legs;
    fed := head + legs;
    assert fed == HEADER + (lower(Trim(intent.address)) + "\n" + legs);
  }

  /** A field, trimmed and folded, and its separator. */
  function Ended(lower: string -> string, s: string): string {
    lower(Trim(s)) + "\U{1F}"
  }

  /** The whole preimage of one transaction: ten fields, each ended, in this order. */
  lemma EncodedTransaction(lower: string -> string, address: string, purpose: string, chainId: nat, tx: UnsignedTx)
    ensures
      var to, create := if tx.to.Some? then tx.to.value else "", if tx.create then "true" else "false";
      Encode(lower, Intent(address, purpose, [Tx(chainId, tx)])) ==
        "logos-keystore-approval-v1\n" + (lower(Trim(address)) + "\n" + ("tx\n" + (Dec(chainId) + "\n" + (
          Ended(lower, to) + (Ended(lower, create) + (Ended(lower, tx.value) + (Ended(lower, tx.nonce) + (Ended(lower, tx.gasLimit)
            + (Ended(lower, tx.data) + (Ended(lower, tx.feeMode) + (Ended(lower, tx.maxFeePerGas)
            + (Ended(lower, tx.maxPriorityFeePerGas) + (Ended(lower, tx.gasPrice) + ""))))))))) + "\n"))))
  {
    OneLeg(lower, Tx(chainId, tx));
    FieldsEnded(lower, tx);
    EndsWithNewline("tx\n", Dec(chainId) + "\n", FieldsText(Fields(lower, tx)));
  }

  lemma EndsWithNewline(tag: string, head: string, body: string)
    ensures tag + ((head + body) + "\n") == tag + (head + (body + "\n"))
  {
  }

  lemma FieldsEnded(lower: string -> string, tx: UnsignedTx)
    ensures
      var to, create := if tx.to.Some? then tx.to.value else "", if tx.create then "true" else "false";
      FieldsText(Fields(lower, tx)) ==
        Ended(lower, to) + (Ended(lower, create) + (Ended(lower, tx.value) + (Ended(lower, tx.nonce) + (Ended(lower, tx.gasLimit)
          + (Ended(lower, tx.data) + (Ended(lower, tx.feeMode) + (Ended(lower, tx.maxFeePerGas)
          + (Ended(lower, tx.maxPriorityFeePerGas) + (Ended(lower, tx.gasPrice) + "")))))))))
  {
    TenEnded(Fields(lower, tx));
  }

  lemma TenEnded(f: seq<string>)
    requires |f| == 10
    ensures
      var u := "\U{1F}";
      FieldsText(f) == (f[0] + u) + ((f[1] + u) + ((f[2] + u) + ((f[3] + u) + ((f[4] + u) + ((f[5] + u) + ((f[6] + u)
        + ((f[7] + u) + ((f[8] + u) + ((f[9] + u) + "")))))))))
  {
    EndedFrom(f, 9);
    EndedFrom(f, 8);
    EndedFrom(f, 7);
    EndedFrom(f, 6);
    EndedFrom(f, 5);
    EndedFrom(f, 4);
    EndedFrom(f, 3);
    EndedFrom(f, 2);
    EndedFrom(f, 1);
    EndedFrom(f, 0);
    assert f[0..] == f && f[10..] == [];
  }

  lemma EndedFrom(f: seq<string>, i: nat)
    requires i < |f|
    ensures FieldsText(f[i..]) == (f[i] + "\U{1F}") + FieldsText(f[i + 1..])
  {
    assert f[i..][0] == f[i] && f[i..][1..] == f[i + 1..];
  }

  /** The preimage of one text, and of one digest. */
  lemma EncodedText(lower: string -> string, address: string, purpose: string, text: string, digest: string, why: string)
    ensures Encode(lower, Intent(address, purpose, [Message(text)])) ==
      "logos-keystore-approval-v1\n" + (lower(Trim(address)) + "\n" + ("message\n" + (text + "\n")))
    ensures Encode(lower, Intent(address, purpose, [Digest(digest, why)])) ==
      "logos-keystore-approval-v1\n" + (lower(Trim(address)) + "\n" + (
        "digest\n" + (lower(TrimStartMatches(Trim(digest), "0x")) + "\U{1F}" + why + "\n")))
  {
    OneLeg(lower, Message(text));
    OneLeg(lower, Digest(digest, why));
  }

  lemma OneLeg(lower: string -> string, leg: Leg)
    ensures LegsText(lower, [leg]) == (Tag(leg) + "\n") + (LegBody(lower, leg) + "\n")
  {
    assert [leg][1..] == [];
    assert LegBody(lower, leg) + "\n" + "" == LegBody(lower, leg) + "\n";
  }

  // ---- what equal encodings have in common -------------------------------------------------

  function Lines(text: string): seq<string> {
    Split(text, '\n')
  }

  /** A line that could open a leg. */
  predicate IsTag(line: string) {
    line == "tx" || line == "message" || line == "digest"
  }

  /** No line after the first could open a leg. */
  predicate Untagged(text: string) {
    forall i :: 0 < i < |Lines(text)| ==> !IsTag(Lines(text)[i])
  }

  /** No committed field can be taken for the end of itself. */
  ghost predicate Delimited(lower: string -> string, leg: Leg) {
    match leg
    case Tx(_, tx) => AllFree(Fields(lower, tx), UNIT_SEPARATOR)
    case Message(text) => Untagged(text)
    case Digest(digest, purpose) => Free(DigestText(lower, digest), UNIT_SEPARATOR) && Untagged(purpose)
  }

  ghost predicate AllDelimited(lower: string -> string, legs: seq<Leg>) {
    forall i :: 0 <= i < |legs| ==> Delimited(lower, legs[i])
  }

  /** One kind, and the same committed content. */
  ghost predicate Alike(lower: string -> string, a: Leg, b: Leg) {
    match (a, b)
    case (Tx(c, t), Tx(d, u)) => c == d && Fields(lower, t) == Fields(lower, u)
    case (Message(t), Message(u)) => t == u
    case (Digest(d, p), Digest(e, q)) => DigestText(lower, d) == DigestText(lower, e) && p == q
    case _ => false
  }

  lemma {:induction false} FieldsCancel(f: seq<string>, g: seq<string>, rf: string, rg: string)
    requires |f| == |g| && AllFree(f, UNIT_SEPARATOR) && AllFree(g, UNIT_SEPARATOR)
    requires FieldsText(f) + rf == FieldsText(g) + rg
    ensures f == g && rf == rg
  {
    if f == [] {
      assert FieldsText(f) + rf == rf && FieldsText(g) + rg == rg;
    } else {
      var tf, tg := FieldsText(f[1..]), FieldsText(g[1..]);
      assert FieldsText(f) + rf == f[0] + [UNIT_SEPARATOR] + (tf + rf);
      assert FieldsText(g) + rg == g[0] + [UNIT_SEPARATOR] + (tg + rg);
      SeparatorCancels(f[0], g[0], tf + rf, tg + rg, UNIT_SEPARATOR);
      FieldsCancel(f[1..], g[1..], rf, rg);
      assert f == [f[0]] + f[1..] && g == [g[0]] + g[1..];
    }
  }

  lemma TxCancels(lower: string -> string, c: nat, t: UnsignedTx, d: nat, u: UnsignedTx, rt: string, ru: string)
    requires AllFree(Fields(lower, t), UNIT_SEPARATOR) && AllFree(Fields(lower, u), UNIT_SEPARATOR)
    requires LegBody(lower, Tx(c, t)) + "\n" + rt == LegBody(lower, Tx(d, u)) + "\n" + ru
    ensures c == d && Fields(lower, t) == Fields(lower, u) && rt == ru
  {
    var ft, fu := FieldsText(Fields(lower, t)), FieldsText(Fields(lower, u));
    DecRoundTrip(c);
    DecRoundTrip(d);
    Regroup(Dec(c) + "\n", ft, "\n", rt);
    Regroup(Dec(d) + "\n", fu, "\n", ru);
    FirstLineCancels(Dec(c), Dec(d), ft, fu, "\n" + rt, "\n" + ru);
    NumeralInjective(c, d, 10);
    FieldsCancel(Fields(lower, t), Fields(lower, u), "\n" + rt, "\n" + ru);
    assert ("\n" + rt)[1..] == rt && ("\n" + ru)[1..] == ru;
  }

  lemma FirstLineCancels(a: string, b: string, fa: string, fb: string, ra: string, rb: string)
    requires Free(a, '\n') && Free(b, '\n')
    requires a + "\n" + fa + ra == b + "\n" + fb + rb
    ensures a == b && fa + ra == fb + rb
  {
    assert a + "\n" + fa + ra == a + "\n" + (fa + ra);
    assert b + "\n" + fb + rb == b + "\n" + (fb + rb);
    SeparatorCancels(a, b, fa + ra, fb + rb, '\n');
  }

  /** What can follow a leg: nothing, or a line that opens one. */
  predicate OpensLeg(rest: string) {
    rest == "" || IsTag(Lines(rest)[0])
  }

  lemma LegsOpen(lower: string -> string, legs: seq<Leg>)
    ensures OpensLeg(LegsText(lower, legs))
  {
    if legs != [] {
      var rest := LegBody(lower, legs[0]) + "\n" + LegsText(lower, legs[1..]);
      TagsDiffer(legs[0], legs[0]);
      SplitAtFirst(Tag(legs[0]), rest, '\n');
    }
  }

  /** Free text, of any number of lines, ends where a leg opens. */
  lemma TextCancels(t: string, u: string, rt: string, ru: string)
    requires Untagged(t) && Untagged(u) && OpensLeg(rt) && OpensLeg(ru)
    requires t + "\n" + rt == u + "\n" + ru
    ensures t == u && rt == ru
  {
    SplitConcat(t, rt, '\n');
    SplitConcat(u, ru, '\n');
    LinesCancel(Lines(t), Lines(u), Lines(rt), Lines(ru));
    JoinSplit(t, '\n');
    JoinSplit(u, '\n');
    JoinSplit(rt, '\n');
    JoinSplit(ru, '\n');
  }

  predicate TagFirst(lines: seq<string>) {
    lines == [""] || (lines != [] && IsTag(lines[0]))
  }

  lemma LinesCancel(a: seq<string>, b: seq<string>, ra: seq<string>, rb: seq<string>)
    requires a != [] && b != [] && TagFirst(ra) && TagFirst(rb) && a + ra == b + rb
    requires forall i :: 0 < i < |a| ==> !IsTag(a[i])
    requires forall i :: 0 < i < |b| ==> !IsTag(b[i])
    ensures a == b && ra == rb
  {
    var all := a + ra;
    assert all[|a|] == ra[0] && all[|b|] == rb[0];
    AtMostAsLong(a, b, ra, rb);
    AtMostAsLong(b, a, rb, ra);
    assert all[..|a|] == a && all[..|b|] == b && all[|a|..] == ra && all[|b|..] == rb;
  }

  lemma AtMostAsLong(a: seq<string>, b: seq<string>, ra: seq<string>, rb: seq<string>)
    requires a != [] && b != [] && TagFirst(ra) && TagFirst(rb) && a + ra == b + rb
    requires forall i :: 0 < i < |b| ==> !IsTag(b[i])
    ensures |b| <= |a|
  {
    assert |a| + |ra| == |b| + |rb|;
    assert (a + ra)[|a|] == ra[0];
    LeftPart(b, rb, |a|);
  }

  lemma LeftPart(b: seq<string>, rb: seq<string>, k: nat)
    requires k < |b| + |rb|
    ensures k < |b| ==> (b + rb)[k] == b[k]
  {
  }

  lemma DigestCancels(a: string, p: string, b: string, q: string, ra: string, rb: string)
    requires Free(a, UNIT_SEPARATOR) && Free(b, UNIT_SEPARATOR) && Untagged(p) && Untagged(q) && OpensLeg(ra) && OpensLeg(rb)
    requires a + [UNIT_SEPARATOR] + p + "\n" + ra == b + [UNIT_SEPARATOR] + q + "\n" + rb
    ensures a == b && p == q && ra == rb
  {
    assert a + [UNIT_SEPARATOR] + p + "\n" + ra == a + [UNIT_SEPARATOR] + (p + "\n" + ra);
    assert b + [UNIT_SEPARATOR] + q + "\n" + rb == b + [UNIT_SEPARATOR] + (q + "\n" + rb);
    SeparatorCancels(a, b, p + "\n" + ra, q + "\n" + rb, UNIT_SEPARATOR);
    TextCancels(p, q, ra, rb);
  }

  lemma BodyCancels(lower: string -> string, a: Leg, b: Leg, ra: string, rb: string)
    requires Tag(a) == Tag(b)
    requires Delimited(lower, a) && Delimited(lower, b) && OpensLeg(ra) && OpensLeg(rb)
    requires LegBody(lower, a) + "\n" + ra == LegBody(lower, b) + "\n" + rb
    ensures Alike(lower, a, b) && ra == rb
  {
    TagsDiffer(a, b);
    match a {
      case Tx(c, t) => TxCancels(lower, c, t, b.chainId, b.tx, ra, rb);
      case Message(t) => TextCancels(t, b.text, ra, rb);
      case Digest(d, p) => DigestCancels(DigestText(lower, d), p, DigestText(lower, b.digest), b.purpose, ra, rb);
    }
  }

  lemma TagsDiffer(a: Leg, b: Leg)
    ensures Free(Tag(a), '\n')
    ensures Tag(a) == Tag(b) ==> a.Tx? == b.Tx? && a.Message? == b.Message? && a.Digest? == b.Digest?
  {
    assert |"tx"| == 2 && |"message"| == 7 && |"digest"| == 6;
  }

  lemma {:induction false} LegsDetermined(lower: string -> string, a: seq<Leg>, b: seq<Leg>)
    requires AllDelimited(lower, a) && AllDelimited(lower, b)
    requires LegsText(lower, a) == LegsText(lower, b)
    ensures |a| == |b|
    ensures forall i :: 0 <= i < |a| ==> Alike(lower, a[i], b[i])
  {
    if a != [] && b != [] {
      var ra := LegBody(lower, a[0]) + "\n" + LegsText(lower, a[1..]);
      var rb := LegBody(lower, b[0]) + "\n" + LegsText(lower, b[1..]);
      TagsDiffer(a[0], b[0]);
      TagsDiffer(b[0], a[0]);
      SeparatorCancels(Tag(a[0]), Tag(b[0]), ra, rb, '\n');
      LegsOpen(lower, a[1..]);
      LegsOpen(lower, b[1..]);
      BodyCancels(lower, a[0], b[0], LegsText(lower, a[1..]), LegsText(lower, b[1..]));
      LegsDetermined(lower, a[1..], b[1..]);
      forall i | 0 <= i < |a| ensures Alike(lower, a[i], b[i]) {
        if i > 0 {
          assert a[i] == a[1..][i - 1] && b[i] == b[1..][i - 1];
        }
      }
    }
  }

  /**
   Equal encodings of delimited bundles come from one account and legs that are alike, in
   number and in order. Transaction legs need only be free of unit separators: a newline in
   a field is not ambiguous, because exactly ten fields follow the chain id. Texts and
   purposes may have any number of lines, but for lines that could open a leg.
   */
  lemma EncodingDeterminesTheBundle(lower: string -> string, a: Intent, b: Intent)
    requires Free(lower(Trim(a.address)), '\n') && Free(lower(Trim(b.address)), '\n')
    requires AllDelimited(lower, a.legs) && AllDelimited(lower, b.legs)
    requires Encode(lower, a) == Encode(lower, b)
    ensures lower(Trim(a.address)) == lower(Trim(b.address))
    ensures |a.legs| == |b.legs|
    ensures forall i :: 0 <= i < |a.legs| ==> Alike(lower, a.legs[i], b.legs[i])
  {
    var ra := lower(Trim(a.address)) + "\n" + LegsText(lower, a.legs);
    var rb := lower(Trim(b.address)) + "\n" + LegsText(lower, b.legs);
    assert Encode(lower, a)[|HEADER|..] == ra && Encode(lower, b)[|HEADER|..] == rb;
    SeparatorCancels(lower(Trim(a.address)), lower(Trim(b.address)), LegsText(lower, a.legs), LegsText(lower, b.legs), '\n');
    LegsDetermined(lower, a.legs, b.legs);
  }

  // ---- from alike to signed ----------------------------------------------------------------

  /** What one leg puts under the signature. */
  datatype Payload = TxPayload(tx: SigningTx) | MessagePayload(text: string) | DigestPayload(digest: Bytes)

  function PayloadOf(leg: Leg): Result<Payload> {
    match leg
    case Tx(chainId, tx) => var t :- Typed(tx, chainId); Ok(TxPayload(t))
    case Message(text) => if Displayable(text) then Ok(MessagePayload(text)) else Err(InvalidParams)
    case Digest(digest, _) => var d :- ReadDigest(Trim(digest)); Ok(DigestPayload(d))
  }

  /** The same but for fees. */
  predicate SameButFees(p: Payload, q: Payload) {
    if p.TxPayload? && q.TxPayload? then CoreOf(p.tx) == CoreOf(q.tx) else p == q
  }

  lemma {:induction false} HexDecodeLength(s: string)
    requires HexDecode(s).Some?
    ensures |s| == 2 * |HexDecode(s).value|
    ensures forall i :: 0 <= i < |s| ==> DigitValue(s[i]) < 16
  {
    if s != "" {
      HexDecodeLength(s[2..]);
      forall i | 0 <= i < |s| ensures DigitValue(s[i]) < 16 {
        if i >= 2 {
          assert s[i] == s[2..][i - 2];
        }
      }
    }
  }

  /** Of a readable digest, the commitment drops one `0x` and keeps everything else. */
  lemma DigestTextOfReadable(t: string)
    requires ReadDigest(t).Ok?
    ensures TrimStartMatches(t, "0x") == (if StartsWith(t, "0x") then t[2..] else t)
    ensures |Unmarked(t)| == 64
    ensures |TrimStartMatches(t, "0x")| == if StartsWith(t, "0X") then 66 else 64
  {
    HexDecodeLength(Unmarked(t));
    if StartsWith(t, "0x") {
      assert t[..2] == "0x";
      assert Unmarked(t) == t[2..];
      assert DigitValue(t[2..][1]) < 16;
      assert !StartsWith(t[2..], "0x") by {
        assert t[2..][..2][1] == t[2..][1];
      }
      assert !StartsWith(t, "0X") by {
        assert t[..2][1] == 'x';
      }
    }
  }

  lemma SameDigest(lower: string -> string, d: string, e: string)
    requires Lowercases(lower) && DigestText(lower, d) == DigestText(lower, e)
    requires ReadDigest(Trim(d)).Ok? && ReadDigest(Trim(e)).Ok?
    ensures ReadDigest(Trim(d)) == ReadDigest(Trim(e))
  {
    var t, u := Trim(d), Trim(e);
    DigestTextOfReadable(t);
    DigestTextOfReadable(u);
    BytesIgnoreCase(t);
    BytesIgnoreCase(u);
    var kt, ku := TrimStartMatches(t, "0x"), TrimStartMatches(u, "0x");
    assert AllAscii(kt) && AllAscii(ku);
    assert |AsciiLower(kt)| == |AsciiLower(ku)|;
    if StartsWith(t, "0X") {
      BytesIgnoreCase(kt);
      BytesIgnoreCase(ku);
    } else {
      assert Unmarked(t) == kt && Unmarked(u) == ku;
      HexDecodeIgnoresCase(kt);
      HexDecodeIgnoresCase(ku);
    }
  }

  /** Legs that are alike, where both sign, sign the same thing. */
  lemma AlikeLegsSignAlike(lower: string -> string, a: Leg, b: Leg)
    requires Lowercases(lower) && Alike(lower, a, b)
    requires PayloadOf(a).Ok? && PayloadOf(b).Ok?
    ensures PayloadOf(a) == PayloadOf(b)
  {
    match a {
      case Tx(c, t) =>
        FieldsAgree(lower, t, b.tx);
        FieldsDetermineTheTransaction(lower, t, b.tx, c);
      case Message(_) =>
      case Digest(d, _) =>
        SameDigest(lower, d, b.digest);
    }
  }

  /**
   The commitment's preimage decides what is signed: corresponding legs of two delimited
   bundles with one encoding, where both sign, put the same payload under the signature.
   */
  lemma EncodingDeterminesTheSignatures(lower: string -> string, a: Intent, b: Intent)
    requires Lowercases(lower)
    requires Free(Trim(a.address), '\n') && Free(Trim(b.address), '\n')
    requires AllDelimited(lower, a.legs) && AllDelimited(lower, b.legs)
    requires Encode(lower, a) == Encode(lower, b)
    ensures |a.legs| == |b.legs|
    ensures forall i :: 0 <= i < |a.legs| && PayloadOf(a.legs[i]).Ok? && PayloadOf(b.legs[i]).Ok? ==>
      PayloadOf(a.legs[i]) == PayloadOf(b.legs[i])
  {
    EncodingDeterminesTheBundle(lower, a, b);
    forall i | 0 <= i < |a.legs| && PayloadOf(a.legs[i]).Ok? && PayloadOf(b.legs[i]).Ok?
      ensures PayloadOf(a.legs[i]) == PayloadOf(b.legs[i])
    {
      AlikeLegsSignAlike(lower, a.legs[i], b.legs[i]);
    }
  }

  /** Transaction legs are delimited as soon as their trimmed fields hold no unit separator. */
  predicate PlainFields(tx: UnsignedTx) {
    && Free(ToText(tx), UNIT_SEPARATOR) && Free(Trim(tx.value), UNIT_SEPARATOR)
    && Free(Trim(tx.nonce), UNIT_SEPARATOR) && Free(Trim(tx.gasLimit), UNIT_SEPARATOR)
    && Free(Trim(tx.data), UNIT_SEPARATOR) && Free(Trim(tx.feeMode), UNIT_SEPARATOR)
    && Free(Trim(tx.maxFeePerGas), UNIT_SEPARATOR) && Free(Trim(tx.maxPriorityFeePerGas), UNIT_SEPARATOR)
    && Free(Trim(tx.gasPrice), UNIT_SEPARATOR)
  }

  lemma PlainFieldsAreDelimited(lower: string -> string, chainId: nat, tx: UnsignedTx)
    requires Lowercases(lower) && PlainFields(tx)
    ensures Delimited(lower, Tx(chainId, tx))
  {
    FlagTextSettled(tx.create);
    assert Free(FlagText(tx.create), UNIT_SEPARATOR);
  }

  predicate PlainTransactions(legs: seq<Leg>) {
    forall i :: 0 <= i < |legs| ==> legs[i].Tx? && PlainFields(legs[i].tx)
  }

  lemma PlainTransactionsAreDelimited(lower: string -> string, legs: seq<Leg>)
    requires Lowercases(lower) && PlainTransactions(legs)
    ensures forall i :: 0 <= i < |legs| ==> Delimited(lower, legs[i])
  {
    forall i | 0 <= i < |legs| ensures Delimited(lower, legs[i]) {
      PlainFieldsAreDelimited(lower, legs[i].chainId, legs[i].tx);
    }
  }

  /** The same, for bundles of transactions, asked of the submitted text alone. */
  lemma TransactionBundlesAreDetermined(lower: string -> string, a: Intent, b: Intent)
    requires Lowercases(lower)
    requires Free(Trim(a.address), '\n') && Free(Trim(b.address), '\n')
    requires PlainTransactions(a.legs) && PlainTransactions(b.legs)
    requires Encode(lower, a) == Encode(lower, b)
    ensures |a.legs| == |b.legs|
    ensures forall i :: 0 <= i < |a.legs| && PayloadOf(a.legs[i]).Ok? && PayloadOf(b.legs[i]).Ok? ==>
      PayloadOf(a.legs[i]) == PayloadOf(b.legs[i])
  {
    PlainTransactionsAreDelimited(lower, a.legs);
    PlainTransactionsAreDelimited(lower, b.legs);
    EncodingDeterminesTheSignatures(lower, a, b);
  }

  /**
   A text with a later line `message` is outside all of the above: such a message and the two
   it can be split into have the same encoding.
   */
  lemma NewlinesInMessagesCollide(lower: string -> string, address: string, purpose: string, t: string, u: string)
    ensures Encode(lower, Intent(address, purpose, [Message(t + "\nmessage\n" + u)])) ==
            Encode(lower, Intent(address, purpose, [Message(t), Message(u)]))
  {
    var joined, split := [Message(t + "\nmessage\n" + u)], [Message(t), Message(u)];
    assert joined[1..] == [] && split[1..] == [Message(u)] && split[1..][1..] == [];
    assert LegsText(lower, joined) == "message" + "\n" + (t + "\nmessage\n" + u + "\n" + "");
    assert LegsText(lower, [Message(u)]) == "message" + "\n" + (u + "\n" + "");
    assert LegsText(lower, split) == "message" + "\n" + (t + "\n" + ("message" + "\n" + (u + "\n" + "")));
    assert t + "\nmessage\n" + u + "\n" + "" == t + "\n" + ("message" + "\n" + (u + "\n" + ""));
  }

  // ---- text a human can be shown -----------------------------------------------------------

  const MAX_MESSAGE_BYTES: nat := 8 * 1024

  function Utf8Bytes(c: char): nat {
    if c < '\U{80}' then 1 else if c < '\U{800}' then 2 else if c < '\U{10000}' then 3 else 4
  }

  function Utf8Length(s: string): nat {
    if s == "" then 0 else Utf8Bytes(s[0]) + Utf8Length(s[1..])
  }

  /** Controls, bidirectional overrides and invisible formatting. */
  predicate Misleads(c: char) {
    || c <= '\U{8}' || c == '\U{B}' || c == '\U{C}' || '\U{E}' <= c <= '\U{1F}' || '\U{7F}' <= c <= '\U{9F}'
    || '\U{202A}' <= c <= '\U{202E}' || '\U{2066}' <= c <= '\U{2069}' || c == '\U{200E}' || c == '\U{200F}'
    || '\U{200B}' <= c <= '\U{200D}' || c == '\U{2060}' || c == '\U{FEFF}'
  }

  /** `check_displayable`. */
  predicate Displayable(text: string) {
    && Utf8Length(text) <= MAX_MESSAGE_BYTES
    && forall i :: 0 <= i < |text| ==> !Misleads(text[i])
  }

  /** No displayable text carries the unit separator, so a shown purpose cannot forge a field. */
  lemma DisplayableIsDelimited(text: string)
    requires Displayable(text)
    ensures Free(text, UNIT_SEPARATOR)
  {
  }
}
