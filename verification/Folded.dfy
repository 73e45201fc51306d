/**
 Every fold signs, and which bundles that leaves alone with their encoding.
 */
module Folded {
  import opened Base
  import opened Text
  import opened TxForm
  import opened Commitment
  import opened Grouping
  import opened Ambiguity
  import opened Rereading
  import opened CaseFold
  import opened Cutting
  import opened Folding

  // ---- with a fold ---------------------------------------------------------------------

  /** The text some legs end in: it settles, in front of its last separator and newline. */
  lemma DigestTextEnds(lower: string -> string, leg: Leg)
    requires Lowercases(lower) && leg.Digest? && Presentable(leg)
    ensures
      var d := DigestText(lower, leg.digest);
      d != "" && !IsWhite(d[|d| - 1])
  {
    DigestReads(leg);
    TrimmedExactly(leg.digest);
    DigestKeeps(Trim(leg.digest));
    LoweredEnds(lower, Trim(leg.digest), TrimStartMatches(Trim(leg.digest), "0x"));
  }

  lemma DigestReads(leg: Leg)
    requires leg.Digest? && Presentable(leg)
    ensures ReadDigest(Trim(leg.digest)).Ok?
  {
  }

  lemma DigestKeeps(t: string)
    requires ReadDigest(t).Ok?
    ensures
      var kept := TrimStartMatches(t, "0x");
      AllAscii(t) && kept != "" && |kept| <= |t| && kept == t[|t| - |kept|..]
  {
    DigestTextOfReadable(t);
    BytesIgnoreCase(t);
  }

  lemma LoweredEnds(lower: string -> string, t: string, kept: string)
    requires Lowercases(lower) && kept != "" && |kept| <= |t| && kept == t[|t| - |kept|..] && AllAscii(t) && Trimmed(t)
    ensures lower(kept) != "" && !IsWhite(lower(kept)[|lower(kept)| - 1])
  {
    assert AllAscii(kept);
    assert kept[|kept| - 1] == t[|t| - 1];
  }

  lemma LastOf(x: string, y: string)
    requires y != ""
    ensures (x + y)[|x + y| - 1] == y[|y| - 1]
  {
  }

  /** Fixed text that starts where a settled field does, and ends well, settles. */
  lemma SettlesWhole(lower: string -> string, first: string, rest: string)
    requires Folds(lower) && Settles(lower, first) && Still(lower, rest)
    requires rest != "" && !IsWhite(rest[|rest| - 1])
    ensures Settles(lower, first + [UNIT_SEPARATOR] + rest)
  {
    StillApart(lower, first, UNIT_SEPARATOR, rest);
    LastOf(first + [UNIT_SEPARATOR], rest);
    var s := first + [UNIT_SEPARATOR] + rest;
    assert s[0] == if first == "" then UNIT_SEPARATOR else first[0];
  }

  lemma SettledIsCommitted(lower: string -> string, s: string)
    requires Settles(lower, s)
    ensures Trim(s) == s && lower(Trim(s)) == s
  {
    TrimmedExactly(s);
  }

  /** What the text of a closing series is, but for its last separator and newline. */
  lemma SeriesEnds(lower: string -> string, mid: seq<Leg>) returns (z: string)
    requires Folds(lower) && AllPresentable(mid) && AllStill(lower, mid) && mid != [] && Closing(mid[|mid| - 1])
    ensures LegsText(lower, mid) == z + [UNIT_SEPARATOR] + "\n" && z != "" && !IsWhite(z[|z| - 1]) && Still(lower, z)
  {
    var last := mid[|mid| - 1];
    if last.Tx? {
      var x := SeriesEndsInTx(lower, mid);
      FieldsSettle(lower, last.tx);
      z := x + [UNIT_SEPARATOR] + Fields(lower, last.tx)[9];
      EndsSettled(x, Fields(lower, last.tx)[9]);
    } else {
      var x := SeriesEndsInDigest(lower, mid);
      assert Presentable(last);
      DigestTextEnds(lower, last);
      z := x + "\n" + DigestText(lower, last.digest);
      LastOf(x + "\n", DigestText(lower, last.digest));
    }
    LegsStill(lower, mid);
    StillApart(lower, z, UNIT_SEPARATOR, "\n");
  }

  lemma EndsSettled(x: string, s: string)
    requires Trimmed(s)
    ensures
      var z := x + [UNIT_SEPARATOR] + s;
      z != "" && !IsWhite(z[|z| - 1])
  {
    if s != "" {
      LastOf(x + [UNIT_SEPARATOR], s);
    }
  }

  /** The same of a series that ends in a transaction, but for that one's gas price too. */
  lemma SeriesEndsBeforeGasPrice(lower: string -> string, mid: seq<Leg>) returns (z: string)
    requires Folds(lower) && AllPresentable(mid) && AllStill(lower, mid) && mid != [] && mid[|mid| - 1].Tx?
    ensures |Fields(lower, mid[|mid| - 1].tx)| == 10
    ensures LegsText(lower, mid) == z + [UNIT_SEPARATOR] + Fields(lower, mid[|mid| - 1].tx)[9] + [UNIT_SEPARATOR] + "\n"
    ensures z != "" && !IsWhite(z[|z| - 1]) && Still(lower, z)
  {
    var f := Fields(lower, mid[|mid| - 1].tx);
    var pre := LastLegApart(lower, mid);
    var body := BodyBeforeGasPrice(lower, mid[|mid| - 1], pre + "\n");
    z := pre + "\n" + body;
    Enclosed(pre + "\n", body, f[9]);
    LegsStill(lower, mid);
    StillInFront(lower, z, f[9]);
  }

  lemma StillInFront(lower: string -> string, z: string, s: string)
    requires Folds(lower) && Still(lower, z + [UNIT_SEPARATOR] + s + [UNIT_SEPARATOR] + "\n")
    ensures Still(lower, z)
  {
    StillApart(lower, z + [UNIT_SEPARATOR] + s, UNIT_SEPARATOR, "\n");
    StillApart(lower, z, UNIT_SEPARATOR, s);
  }

  lemma BodyBeforeGasPrice(lower: string -> string, leg: Leg, pre: string) returns (body: string)
    requires Folds(lower) && leg.Tx?
    ensures |Fields(lower, leg.tx)| == 10
    ensures LegBody(lower, leg) == body + [UNIT_SEPARATOR] + Fields(lower, leg.tx)[9] + [UNIT_SEPARATOR]
    ensures pre + body != "" && !IsWhite((pre + body)[|pre + body| - 1])
  {
    var f := Fields(lower, leg.tx);
    body := TxBodyEnds(lower, leg);
    FieldsSettle(lower, leg.tx);
    EightFields(f);
    BodyEndsSettled(pre, Dec(leg.chainId) + "\n", FieldsText(f[..7]), f[7], f[8]);
  }

  lemma EightFields(f: seq<string>)
    requires |f| == 10
    ensures FieldsText(f[..8]) == FieldsText(f[..7]) + (f[7] + [UNIT_SEPARATOR])
  {
    assert f[..8] == f[..7] + [f[7]];
    FieldsTextSnoc(f[..7], f[7]);
  }

  lemma BodyEndsSettled(pre: string, d: string, x: string, s: string, t: string)
    requires Trimmed(t)
    ensures
      var z := pre + (d + (x + (s + [UNIT_SEPARATOR]) + t));
      z != "" && !IsWhite(z[|z| - 1])
  {
    var z := pre + (d + (x + (s + [UNIT_SEPARATOR]) + t));
    assert z == pre + d + x + s + [UNIT_SEPARATOR] + t;
    EndsSettled(pre + d + x + s, t);
  }

  /** A separator and a newline in front of what settles. */
  lemma NewlineBefore(lower: string -> string, z: string)
    requires Folds(lower) && Still(lower, z) && z != "" && !IsWhite(z[|z| - 1])
    ensures Still(lower, "\n" + z) && ("\n" + z) != "" && !IsWhite(("\n" + z)[|z|])
  {
    LowerFixesSettled(lower, "");
    StillApart(lower, "", '\n', z);
    assert "" + ['\n'] + z == "\n" + z;
  }

  /** An EIP-1559 transaction with this as its gas price, or a legacy one with these as its last two fields. */
  function Host(tx: UnsignedTx, priority: string, price: string): UnsignedTx {
    if IsLegacy(tx) then tx.(maxPriorityFeePerGas := priority, gasPrice := price) else tx.(gasPrice := price)
  }

  lemma HostField(lower: string -> string, tx: UnsignedTx, priority: string, price: string, i: nat)
    requires Settles(lower, priority) && Settles(lower, price) && i < 10
    ensures Fields(lower, Host(tx, priority, price))[i] ==
      if i == 9 then price else if i == 8 && IsLegacy(tx) then priority else Fields(lower, tx)[i]
  {
    SettledIsCommitted(lower, priority);
    SettledIsCommitted(lower, price);
    FieldsAre(lower, tx, i);
    FieldsAre(lower, Host(tx, priority, price), i);
  }

  lemma HostFields(lower: string -> string, tx: UnsignedTx, priority: string, price: string)
    requires Settles(lower, priority) && Settles(lower, price)
    ensures
      var f := Fields(lower, tx);
      && |f| == 10
      && Fields(lower, Host(tx, priority, price)) == if IsLegacy(tx) then f[..8] + [priority, price] else f[..9] + [price]
  {
    forall i: nat | i < 10
      ensures Fields(lower, Host(tx, priority, price))[i] ==
        if i == 9 then price else if i == 8 && IsLegacy(tx) then priority else Fields(lower, tx)[i]
    {
      HostField(lower, tx, priority, price, i);
    }
    TenFields(Fields(lower, tx), Fields(lower, Host(tx, priority, price)), IsLegacy(tx), priority, price);
  }

  lemma TenFields(f: seq<string>, g: seq<string>, legacy: bool, priority: string, price: string)
    requires |f| == |g| == 10
    requires forall i :: 0 <= i < 10 ==> g[i] == if i == 9 then price else if i == 8 && legacy then priority else f[i]
    ensures g == if legacy then f[..8] + [priority, price] else f[..9] + [price]
  {
  }

  /** Its own text and what follows, taken into the last field it is not signed by. */
  lemma LastFieldTakes(f: seq<string>, z: string, more: string)
    requires |f| == 10 && more == z + [UNIT_SEPARATOR] + "\n"
    ensures FieldsText(f[..9] + [f[9] + [UNIT_SEPARATOR] + ("\n" + z)]) + "\n" == FieldsText(f) + "\n" + more
  {
    FieldsTextSnoc(f[..9], f[9]);
    FieldsTextSnoc(f[..9], f[9] + [UNIT_SEPARATOR] + ("\n" + z));
    assert f[..9] + [f[9]] == f;
    TakenTexts(FieldsText(f[..9]), f[9], z);
  }

  lemma TakenTexts(front: string, s: string, z: string)
    ensures front + (s + [UNIT_SEPARATOR] + ("\n" + z) + [UNIT_SEPARATOR]) + "\n" ==
            front + (s + [UNIT_SEPARATOR]) + "\n" + (z + [UNIT_SEPARATOR] + "\n")
  {
  }

  lemma LastTwoTake(f: seq<string>, z: string, t: string, more: string)
    requires |f| == 10 && more == z + [UNIT_SEPARATOR] + t + [UNIT_SEPARATOR] + "\n"
    ensures FieldsText(f[..8] + [f[8] + [UNIT_SEPARATOR] + (f[9] + [UNIT_SEPARATOR] + ("\n" + z)), t]) + "\n" == FieldsText(f) + "\n" + more
  {
    var taken := f[8] + [UNIT_SEPARATOR] + (f[9] + [UNIT_SEPARATOR] + ("\n" + z));
    FieldsTextSnoc(f[..8], f[8]);
    FieldsTextSnoc(f[..9], f[9]);
    FieldsTextSnoc(f[..8], taken);
    FieldsTextSnoc(f[..8] + [taken], t);
    assert f[..8] + [f[8]] == f[..9] && f[..9] + [f[9]] == f && f[..8] + [taken] + [t] == f[..8] + [taken, t];
    TwoTakenTexts(FieldsText(f[..8]), f[8], f[9], z, t);
  }

  lemma TwoTakenTexts(front: string, r: string, s: string, z: string, t: string)
    ensures front + (r + [UNIT_SEPARATOR] + (s + [UNIT_SEPARATOR] + ("\n" + z)) + [UNIT_SEPARATOR]) + (t + [UNIT_SEPARATOR]) + "\n" ==
            front + (r + [UNIT_SEPARATOR]) + (s + [UNIT_SEPARATOR]) + "\n" + (z + [UNIT_SEPARATOR] + t + [UNIT_SEPARATOR] + "\n")
  {
  }

  /** What the host's last field, or its last two, become. */
  lemma Taken(lower: string -> string, host: UnsignedTx, mid: seq<Leg>) returns (priority: string, price: string)
    requires Folds(lower) && AllPresentable(mid) && AllStill(lower, mid) && mid != [] && Closes(lower, host, mid[|mid| - 1])
    ensures Settles(lower, priority) && Settles(lower, price)
    ensures IsLegacy(host) ==> ReadNumber(price, U128_LIMIT).Ok?
    ensures FieldsText(Fields(lower, Host(host, priority, price))) + "\n" == FieldsText(Fields(lower, host)) + "\n" + LegsText(lower, mid)
  {
    FieldsSettle(lower, host);
    if IsLegacy(host) {
      priority, price := TakenByLegacy(lower, host, mid);
    } else {
      priority := "";
      LowerFixesSettled(lower, "");
      price := TakenByFeeMarket(lower, host, mid);
    }
    HostFields(lower, host, priority, price);
  }

  lemma TakenByFeeMarket(lower: string -> string, host: UnsignedTx, mid: seq<Leg>) returns (price: string)
    requires Folds(lower) && AllPresentable(mid) && AllStill(lower, mid) && mid != [] && Closing(mid[|mid| - 1])
    ensures |Fields(lower, host)| == 10 && Settles(lower, price)
    ensures FieldsText(Fields(lower, host)[..9] + [price]) + "\n" == FieldsText(Fields(lower, host)) + "\n" + LegsText(lower, mid)
  {
    var f := Fields(lower, host);
    FieldsSettle(lower, host);
    var z := SeriesEnds(lower, mid);
    NewlineBefore(lower, z);
    price := f[9] + [UNIT_SEPARATOR] + ("\n" + z);
    SettlesWhole(lower, f[9], "\n" + z);
    LastFieldTakes(f, z, LegsText(lower, mid));
  }

  lemma TakenByLegacy(lower: string -> string, host: UnsignedTx, mid: seq<Leg>) returns (priority: string, price: string)
    requires Folds(lower) && AllPresentable(mid) && AllStill(lower, mid) && mid != [] && IsLegacy(host) && Closes(lower, host, mid[|mid| - 1])
    ensures |Fields(lower, host)| == 10 && Settles(lower, priority) && Settles(lower, price) && ReadNumber(price, U128_LIMIT).Ok?
    ensures FieldsText(Fields(lower, host)[..8] + [priority, price]) + "\n" == FieldsText(Fields(lower, host)) + "\n" + LegsText(lower, mid)
  {
    var f, last := Fields(lower, host), mid[|mid| - 1];
    FieldsSettle(lower, host);
    FieldsSettle(lower, last.tx);
    FieldsAre(lower, last.tx, 9);
    price := Fields(lower, last.tx)[9];
    var z := SeriesEndsBeforeGasPrice(lower, mid);
    NewlineBefore(lower, z);
    SettlesWhole(lower, f[9], "\n" + z);
    LastOf(f[9] + [UNIT_SEPARATOR], "\n" + z);
    priority := f[8] + [UNIT_SEPARATOR] + (f[9] + [UNIT_SEPARATOR] + ("\n" + z));
    SettlesWhole(lower, f[8], f[9] + [UNIT_SEPARATOR] + ("\n" + z));
    LastTwoTake(f, z, price, LegsText(lower, mid));
  }

  lemma HostReads(lower: string -> string, tx: UnsignedTx, priority: string, price: string)
    requires Reads(tx) && Settles(lower, priority) && Settles(lower, price) && (IsLegacy(tx) ==> ReadNumber(price, U128_LIMIT).Ok?)
    ensures Reads(Host(tx, priority, price))
  {
    SettledIsCommitted(lower, price);
  }

  /** One transaction that signs, with the text of the host and the series after it. */
  lemma FoldedLeg(lower: string -> string, host: Leg, mid: seq<Leg>) returns (leg: Leg)
    requires Folds(lower) && host.Tx? && Signs(host) && AllPresentable(mid) && AllStill(lower, mid)
    requires mid != [] && Closes(lower, host.tx, mid[|mid| - 1])
    ensures leg.Tx? && Signs(leg) && LegsText(lower, [leg]) == LegsText(lower, [host] + mid)
  {
    var priority, price := Taken(lower, host.tx, mid);
    HostTakes(lower, host, mid, priority, price);
    leg := Tx(host.chainId, Host(host.tx, priority, price));
  }

  lemma BodiesMeet(tag: string, d: string, x: string, y: string, more: string)
    requires x + "\n" == y + "\n" + more
    ensures tag + (d + x + "\n" + "") == tag + (d + y + "\n" + more)
  {
    assert d + x + "\n" + "" == d + (x + "\n") && d + y + "\n" + more == d + (y + "\n" + more);
  }

  lemma LegsTextConcat(lower: string -> string, x: seq<Leg>, y: seq<Leg>)
    ensures LegsText(lower, x + y) == LegsText(lower, x) + LegsText(lower, y)
  {
    LegsAreAtoms(lower, x);
    LegsAreAtoms(lower, y);
    LegsAreAtoms(lower, x + y);
    AtomsConcat(lower, x, y);
    AtomsTextConcat(Atoms(lower, x), Atoms(lower, y));
  }

  lemma LegsTextInside(lower: string -> string, pre: seq<Leg>, x: seq<Leg>, y: seq<Leg>, post: seq<Leg>)
    requires LegsText(lower, x) == LegsText(lower, y)
    ensures LegsText(lower, pre + x + post) == LegsText(lower, pre + y + post)
  {
    LegsTextConcat(lower, pre + x, post);
    LegsTextConcat(lower, pre, x);
    LegsTextConcat(lower, pre + y, post);
    LegsTextConcat(lower, pre, y);
  }

  lemma SlicePresentable(a: seq<Leg>, lo: nat, hi: nat)
    requires AllPresentable(a) && lo <= hi <= |a|
    ensures AllPresentable(a[lo..hi])
  {
    forall k | 0 <= k < hi - lo ensures Presentable(a[lo..hi][k]) {
      assert Presentable(a[lo + k]);
    }
  }

  lemma SliceStill(lower: string -> string, a: seq<Leg>, lo: nat, hi: nat)
    requires lo <= hi <= |a| && StillBetween(lower, a, lo, hi)
    ensures AllStill(lower, a[lo..hi])
  {
    var mid := a[lo..hi];
    forall k | 0 <= k < |mid| ensures StillLeg(lower, mid[k]) {
      assert StillLeg(lower, a[lo + k]);
    }
  }

  lemma SigningInside(pre: seq<Leg>, leg: Leg, post: seq<Leg>)
    requires AllSign(pre) && Signs(leg) && AllSign(post)
    ensures AllSign(pre + [leg] + post)
  {
    var all := pre + [leg] + post;
    forall k | 0 <= k < |all| ensures Signs(all[k]) {
      if k < |pre| {
        assert Signs(pre[k]);
      } else if k > |pre| {
        assert Signs(post[k - |pre| - 1]);
      }
    }
  }

  lemma AroundSome(a: seq<Leg>, i: nat, j: nat)
    requires i < j < |a|
    ensures a == a[..i] + ([a[i]] + a[i + 1..j + 1]) + a[j + 1..]
  {
  }

  lemma FoldWindow(lower: string -> string, a: seq<Leg>, i: nat, j: nat) returns (leg: Leg)
    requires Folds(lower) && AllPresentable(a) && i < j < |a| && FoldsIn(lower, a, i, j)
    ensures Signs(leg) && LegsText(lower, [leg]) == LegsText(lower, [a[i]] + a[i + 1..j + 1])
  {
    var mid := a[i + 1..j + 1];
    SlicePresentable(a, i + 1, j + 1);
    SliceStill(lower, a, i + 1, j + 1);
    WindowCloses(lower, a, i, j);
    leg := FoldedLeg(lower, a[i], mid);
  }

  lemma WindowCloses(lower: string -> string, a: seq<Leg>, i: nat, j: nat)
    requires AllPresentable(a) && i < j < |a| && FoldsIn(lower, a, i, j)
    ensures a[i].Tx? && Signs(a[i]) && Closes(lower, a[i].tx, a[i + 1..j + 1][j - i - 1])
  {
    assert Presentable(a[i]);
  }

  lemma InPlace(lower: string -> string, a: seq<Leg>, i: nat, j: nat, leg: Leg)
    requires i < j < |a| && LegsText(lower, [leg]) == LegsText(lower, [a[i]] + a[i + 1..j + 1])
    ensures LegsText(lower, a[..i] + [leg] + a[j + 1..]) == LegsText(lower, a)
  {
    AroundSome(a, i, j);
    LegsTextInside(lower, a[..i], [leg], [a[i]] + a[i + 1..j + 1], a[j + 1..]);
  }

  /** A fold is another bundle that signs, with the same text and fewer legs. */
  lemma FoldDoubles(lower: string -> string, a: seq<Leg>, i: nat, j: nat) returns (b: seq<Leg>)
    requires Folds(lower) && AllPresentable(a) && i < j < |a| && FoldsIn(lower, a, i, j)
    ensures AllSign(b) && LegsText(lower, b) == LegsText(lower, a) && |b| < |a|
  {
    var leg := FoldWindow(lower, a, i, j);
    InPlace(lower, a, i, j, leg);
    PresentableSigns(a);
    SigningParts(a, i, j + 1);
    SigningInside(a[..i], leg, a[j + 1..]);
    b := a[..i] + [leg] + a[j + 1..];
  }

  lemma SigningParts(a: seq<Leg>, i: nat, j: nat)
    requires AllSign(a) && i <= j <= |a|
    ensures AllSign(a[..i]) && AllSign(a[j..])
  {
    forall k | 0 <= k < i ensures Signs(a[..i][k]) {
      assert Signs(a[k]);
    }
    forall k | 0 <= k < |a| - j ensures Signs(a[j..][k]) {
      assert Signs(a[j + k]);
    }
  }

  // ---- the exact result ----------------------------------------------------------------

  /**
   Of a plain bundle that signs: everything else that signs with its text signs the same, leg
   by leg, exactly if no change of two or three legs is to be found in it, and no transaction
   is followed by legs that fold into a field it is not signed by.
   */
  lemma SigningAloneExactly(lower: string -> string, a: seq<Leg>)
    requires Folds(lower) && AllPresentable(a)
    ensures !HasTurn(a) && !HasFold(lower, a) <==>
      forall b :: AllSign(b) && LegsText(lower, b) == LegsText(lower, a) ==> SignAlike(a, b)
  {
    if HasTurn(a) {
      var i :| 0 <= i < |a| && Turns(a, i);
      var b := TurnsDouble(lower, a, i);
      LegsAreAtoms(lower, a);
      LegsAreAtoms(lower, b);
      PresentableSigns(b);
    } else if HasFold(lower, a) {
      var i, j :| 0 <= i < j < |a| && FoldsIn(lower, a, i, j);
      var b := FoldDoubles(lower, a, i, j);
    } else {
      forall b | AllSign(b) && LegsText(lower, b) == LegsText(lower, a) ensures SignAlike(a, b) {
        NoFoldNoReading(lower, a, b);
      }
    }
  }

  // ---- what every reading has in common ------------------------------------------------

  /** Unfolded, a bundle has the same text. */
  lemma {:induction false} UnfoldedText(lower: string -> string, b: seq<Leg>, c: seq<Leg>, cuts: seq<nat>, k: nat)
    requires Parted(Unfolding(lower), b, c, cuts) && k <= |b|
    ensures cuts[k] <= |c| && LegsText(lower, b[..k]) == LegsText(lower, c[..cuts[k]])
  {
    if k > 0 {
      UnfoldedText(lower, b, c, cuts, k - 1);
      assert Part(Unfolding(lower), b, c, cuts, k - 1);
      var g := c[cuts[k - 1]..cuts[k]];
      assert UnfoldsTo(lower, b[k - 1], g);
      LegsTextConcat(lower, b[..k - 1], [b[k - 1]]);
      LegsTextConcat(lower, c[..cuts[k - 1]], g);
      LegByLeg(b, k);
      BothSlices(c, cuts[k - 1], cuts[k]);
    }
  }

  lemma LegByLeg(b: seq<Leg>, k: nat)
    requires 0 < k <= |b|
    ensures b[..k - 1] + [b[k - 1]] == b[..k]
  {
  }

  lemma BothSlices(c: seq<Leg>, p: nat, q: nat)
    requires p <= q <= |c|
    ensures c[..p] + c[p..q] == c[..q]
  {
  }

  /** It is a plain bundle with these atoms, of which some transactions have taken what follows them. */
  ghost predicate IsReadingOf(lower: string -> string, b: seq<Leg>, a: seq<Leg>) {
    exists c, cuts :: AllPresentable(c) && Atoms(lower, c) == Atoms(lower, a) && Parted(Unfolding(lower), b, c, cuts)
  }

  /**
   Whatever signs shares its encoding with a plain bundle exactly if the accounts are one and,
   unfolded, it is a plain bundle with the same transactions, digests and lines of text.
   */
  lemma SigningEncodingsMeetExactly(lower: string -> string, a: Intent, b: Intent)
    requires Folds(lower) && AllPresentable(a.legs) && AllSign(b.legs)
    requires Free(lower(Trim(a.address)), '\n') && Free(lower(Trim(b.address)), '\n')
    ensures Encode(lower, a) == Encode(lower, b) <==>
      lower(Trim(a.address)) == lower(Trim(b.address)) && IsReadingOf(lower, b.legs, a.legs)
  {
    var x, y := lower(Trim(a.address)), lower(Trim(b.address));
    if Encode(lower, a) == Encode(lower, b) {
      SamePart(HEADER, x + "\n" + LegsText(lower, a.legs), y + "\n" + LegsText(lower, b.legs));
      SeparatorCancels(x, y, LegsText(lower, a.legs), LegsText(lower, b.legs), '\n');
      var c, cuts := Unfolds(lower, a.legs, b.legs);
    }
    if IsReadingOf(lower, b.legs, a.legs) {
      var c, cuts :| AllPresentable(c) && Atoms(lower, c) == Atoms(lower, a.legs) && Parted(Unfolding(lower), b.legs, c, cuts);
      UnfoldedText(lower, b.legs, c, cuts, |b.legs|);
      assert b.legs[..|b.legs|] == b.legs && c[..|c|] == c;
      LegsAreAtoms(lower, c);
      LegsAreAtoms(lower, a.legs);
    }
  }

  /**
   A bundle that signs with the text of a plain one, and is not plain itself, is not alone: the
   plain ones it unfolds to have more legs. So none of that text is alone but a plain one.
   */
  lemma NotPlainIsNotAlone(lower: string -> string, a: seq<Leg>, b: seq<Leg>) returns (c: seq<Leg>)
    requires Folds(lower) && AllPresentable(a) && AllSign(b) && LegsText(lower, a) == LegsText(lower, b)
    ensures AllPresentable(c) && LegsText(lower, c) == LegsText(lower, b) && |c| >= |b|
    ensures |c| == |b| ==> AllPresentable(b)
  {
    var cuts;
    c, cuts := Unfolds(lower, a, b);
    LegsAreAtoms(lower, c);
    LegsAreAtoms(lower, a);
    MoreUnfolded(Unfolding(lower), b, c, cuts, |b|);
    if |c| == |b| {
      SinglesArePlain(lower, b, c, cuts, |b|);
      assert b[..|b|] == b;
    }
  }

  // ---- which transactions and digests --------------------------------------------------

  /** Both sign, and the same but for fees. */
  predicate SignsAs(x: Leg, y: Leg) {
    PayloadOf(x).Ok? && PayloadOf(y).Ok? && SameButFees(PayloadOf(x).value, PayloadOf(y).value)
  }

  /** Each of the first is related to one of the second, in this order. */
  predicate Among(rel: (Leg, Leg) -> bool, xs: seq<Leg>, ys: seq<Leg>)
    decreases |ys|
  {
    xs == [] || (ys != [] && ((rel(xs[0], ys[0]) && Among(rel, xs[1..], ys[1..])) || Among(rel, xs, ys[1..])))
  }

  lemma {:induction false} AmongMore(rel: (Leg, Leg) -> bool, xs: seq<Leg>, pre: seq<Leg>, ys: seq<Leg>)
    requires Among(rel, xs, ys)
    ensures Among(rel, xs, pre + ys)
    decreases |pre|
  {
    if pre == [] {
      assert pre + ys == ys;
    } else {
      AmongMore(rel, xs, pre[1..], ys);
      assert (pre + ys)[1..] == pre[1..] + ys;
    }
  }

  lemma {:induction false} WeightyConcat(x: seq<Leg>, y: seq<Leg>)
    ensures Weighty(x + y) == Weighty(x) + Weighty(y)
  {
    if x == [] {
      assert x + y == y;
    } else {
      assert (x + y)[1..] == x[1..] + y && (x + y)[0] == x[0];
      WeightyConcat(x[1..], y);
      if !x[0].Message? {
        assert [x[0]] + (Weighty(x[1..]) + Weighty(y)) == [x[0]] + Weighty(x[1..]) + Weighty(y);
      }
    }
  }

  /** One front, and both read: one transaction but for fees. */
  lemma SameCore(lower: string -> string, p: Leg, q: Leg)
    requires Lowercases(lower) && p.Tx? && q.Tx? && Signs(p) && Signs(q) && p.chainId == q.chainId
    requires Fields(lower, p.tx)[..7] == Fields(lower, q.tx)[..7]
    ensures SignsAs(p, q)
  {
    SigningReads(p);
    SigningReads(q);
    FrontAgrees(lower, p.tx, q.tx);
    var t, u := p.tx, q.tx;
    SameCreate(lower, t.create, u.create);
    SameRecipient(lower, ToText(t), ToText(u), t.create);
    SameNumber(lower, Trim(t.value), Trim(u.value), U256_LIMIT);
    SameNumber(lower, Trim(t.nonce), Trim(u.nonce), U128_LIMIT);
    SameNumber(lower, Trim(t.gasLimit), Trim(u.gasLimit), U128_LIMIT);
    SameBytes(lower, Trim(t.data), Trim(u.data));
    CoreOfTyped(t, p.chainId);
    CoreOfTyped(u, q.chainId);
  }

  lemma FrontAgrees(lower: string -> string, t: UnsignedTx, u: UnsignedTx)
    requires Fields(lower, t)[..7] == Fields(lower, u)[..7]
    ensures lower(ToText(t)) == lower(ToText(u)) && lower(Trim(FlagText(t.create))) == lower(Trim(FlagText(u.create)))
    ensures lower(Trim(t.value)) == lower(Trim(u.value)) && lower(Trim(t.nonce)) == lower(Trim(u.nonce))
    ensures lower(Trim(t.gasLimit)) == lower(Trim(u.gasLimit)) && lower(Trim(t.data)) == lower(Trim(u.data))
  {
    var f, g := Fields(lower, t)[..7], Fields(lower, u)[..7];
    assert f[0] == g[0] && f[1] == g[1] && f[2] == g[2] && f[3] == g[3] && f[4] == g[4] && f[5] == g[5];
  }

  lemma UnfoldedHead(lower: string -> string, leg: Leg, g: seq<Leg>)
    requires Lowercases(lower) && Signs(leg) && !leg.Message? && UnfoldsTo(lower, leg, g)
    ensures g != [] && !g[0].Message? && SignsAs(leg, g[0])
  {
    if leg.Tx? {
      assert Presentable(g[0]);
      LegsTextIs(lower, [leg]);
      LegsTextIs(lower, g);
      assert [leg][1..] == [];
      SameFront(lower, leg, g[0], "", LegsText(lower, g[1..]));
      SameCore(lower, leg, g[0]);
    }
  }

  lemma {:induction false} UnfoldedAmong(lower: string -> string, b: seq<Leg>, c: seq<Leg>, cuts: seq<nat>, k: nat)
    requires Lowercases(lower) && AllSign(b) && Parted(Unfolding(lower), b, c, cuts) && k <= |b|
    ensures cuts[k] <= |c| && Among(SignsAs, Weighty(b[k..]), Weighty(c[cuts[k]..]))
    decreases |b| - k
  {
    if k < |b| {
      UnfoldedAmong(lower, b, c, cuts, k + 1);
      assert Part(Unfolding(lower), b, c, cuts, k);
      var g, rest := c[cuts[k]..cuts[k + 1]], c[cuts[k + 1]..];
      assert Signs(b[k]);
      TailSlices(c, cuts[k], cuts[k + 1]);
      WeightyConcat(g, rest);
      WeightyFrom(b, k);
      OneAmong(lower, b[k], g, Weighty(b[k + 1..]), Weighty(rest));
    }
  }

  lemma TailSlices(c: seq<Leg>, p: nat, q: nat)
    requires p <= q <= |c|
    ensures c[p..] == c[p..q] + c[q..]
  {
  }

  lemma WeightyFrom(b: seq<Leg>, k: nat)
    requires k < |b|
    ensures Weighty(b[k..]) == if b[k].Message? then Weighty(b[k + 1..]) else [b[k]] + Weighty(b[k + 1..])
  {
    assert b[k..][1..] == b[k + 1..];
  }

  lemma OneAmong(lower: string -> string, leg: Leg, g: seq<Leg>, xs: seq<Leg>, ys: seq<Leg>)
    requires Lowercases(lower) && Signs(leg) && UnfoldsTo(lower, leg, g) && Among(SignsAs, xs, ys)
    ensures Among(SignsAs, if leg.Message? then xs else [leg] + xs, Weighty(g) + ys)
  {
    if leg.Message? {
      assert Weighty(g) + ys == ys;
    } else {
      UnfoldedHead(lower, leg, g);
      AmongMore(SignsAs, xs, Weighty(g[1..]), ys);
      HeadOn(g[0], Weighty(g[1..]), ys);
      AmongHead(SignsAs, leg, xs, Weighty(g) + ys);
    }
  }

  lemma HeadOn(first: Leg, more: seq<Leg>, ys: seq<Leg>)
    ensures ([first] + more + ys)[0] == first && ([first] + more + ys)[1..] == more + ys
  {
  }

  lemma AmongHead(rel: (Leg, Leg) -> bool, leg: Leg, xs: seq<Leg>, r: seq<Leg>)
    requires r != [] && rel(leg, r[0]) && Among(rel, xs, r[1..])
    ensures Among(rel, [leg] + xs, r)
  {
    var l := [leg] + xs;
    assert l[0] == leg && l[1..] == xs;
  }

  /** Legs that sign alike one for one stand in for each other. */
  lemma {:induction false} AmongAlike(rel: (Leg, Leg) -> bool, xs: seq<Leg>, ys: seq<Leg>, zs: seq<Leg>)
    requires Among(rel, xs, ys) && |ys| == |zs|
    requires forall i, x :: 0 <= i < |ys| && rel(x, ys[i]) ==> rel(x, zs[i])
    ensures Among(rel, xs, zs)
    decreases |ys|
  {
    if xs != [] {
      if rel(xs[0], ys[0]) && Among(rel, xs[1..], ys[1..]) {
        AmongAlike(rel, xs[1..], ys[1..], zs[1..]);
      } else {
        AmongAlike(rel, xs, ys[1..], zs[1..]);
      }
    }
  }

  lemma AlikeStandsIn(ys: seq<Leg>, zs: seq<Leg>)
    requires |ys| == |zs|
    requires forall i :: 0 <= i < |ys| ==> PayloadOf(zs[i]).Ok? && (PayloadOf(ys[i]).Ok? ==> PayloadOf(ys[i]) == PayloadOf(zs[i]))
    ensures forall i, x :: 0 <= i < |ys| && SignsAs(x, ys[i]) ==> SignsAs(x, zs[i])
  {
  }

  lemma {:induction false} WeightySign(legs: seq<Leg>)
    requires AllSign(legs)
    ensures forall i :: 0 <= i < |Weighty(legs)| ==> PayloadOf(Weighty(legs)[i]).Ok?
  {
    if legs != [] {
      SigningTail(legs);
      WeightySign(legs[1..]);
    }
  }

  /**
   Under the encoding of a plain bundle nothing else signs a transaction or a digest that is not
   one of its own, in its order and but for the fees of a transaction. It may sign fewer.
   */
  lemma TransactionsAndDigestsAreAmong(lower: string -> string, a: Intent, b: Intent)
    requires Folds(lower) && AllPresentable(a.legs) && AllSign(b.legs)
    requires Free(lower(Trim(a.address)), '\n') && Free(lower(Trim(b.address)), '\n')
    requires Encode(lower, a) == Encode(lower, b)
    ensures Among(SignsAs, Weighty(b.legs), Weighty(a.legs))
  {
    SigningEncodingsMeetExactly(lower, a, b);
    var c, cuts :| AllPresentable(c) && Atoms(lower, c) == Atoms(lower, a.legs) && Parted(Unfolding(lower), b.legs, c, cuts);
    UnfoldedAmong(lower, b.legs, c, cuts, 0);
    assert b.legs[0..] == b.legs && c[0..] == c;
    SameWeighty(lower, a, c);
    PresentableSigns(a.legs);
    WeightySign(a.legs);
    PresentableSigns(c);
    WeightySign(c);
    AlikeStandsIn(Weighty(c), Weighty(a.legs));
    AmongAlike(SignsAs, Weighty(b.legs), Weighty(c), Weighty(a.legs));
  }

  lemma SameWeighty(lower: string -> string, a: Intent, c: seq<Leg>)
    requires Lowercases(lower) && AllPresentable(a.legs) && AllPresentable(c) && Atoms(lower, c) == Atoms(lower, a.legs)
    requires Free(lower(Trim(a.address)), '\n')
    ensures |Weighty(c)| == |Weighty(a.legs)|
    ensures forall i :: 0 <= i < |Weighty(c)| && PayloadOf(Weighty(c)[i]).Ok? && PayloadOf(Weighty(a.legs)[i]).Ok? ==>
      PayloadOf(Weighty(c)[i]) == PayloadOf(Weighty(a.legs)[i])
  {
    SigningIsClean(lower, a.legs);
    SigningIsClean(lower, c);
    var other := Intent(a.address, a.purpose, c);
    EncodingsMeetExactly(lower, other, a);
    TransactionsAndDigestsAreFixed(lower, other, a);
  }

  // ---- instances -----------------------------------------------------------------------

  /** An EIP-1559 transaction directly followed by another is never alone with its encoding. */
  lemma PairsFold(lower: string -> string, a: seq<Leg>, i: nat)
    requires Folds(lower) && AllPresentable(a) && i + 1 < |a| && a[i].Tx? && a[i + 1].Tx? && !IsLegacy(a[i].tx)
    ensures HasFold(lower, a)
  {
    LowerFixesSettled(lower, "");
    assert StillLeg(lower, a[i + 1]);
    assert FoldsIn(lower, a, i, i + 1);
  }

  /** The text of a series, but for its end, as the gas price of the transaction in front of it. */
  lemma TextInThePrice(lower: string -> string, host: Leg, mid: seq<Leg>, z: string)
    requires Folds(lower) && host.Tx? && Signs(host) && !IsLegacy(host.tx)
    requires LegsText(lower, mid) == z + [UNIT_SEPARATOR] + "\n" && Still(lower, z) && z != "" && !IsWhite(z[|z| - 1])
    ensures
      var leg := Tx(host.chainId, host.tx.(gasPrice := lower(Trim(host.tx.gasPrice)) + [UNIT_SEPARATOR] + ("\n" + z)));
      Signs(leg) && LegsText(lower, [leg]) == LegsText(lower, [host] + mid)
  {
    var f := Fields(lower, host.tx);
    FieldsSettle(lower, host.tx);
    FieldsAre(lower, host.tx, 9);
    NewlineBefore(lower, z);
    var price := f[9] + [UNIT_SEPARATOR] + ("\n" + z);
    SettlesWhole(lower, f[9], "\n" + z);
    LowerFixesSettled(lower, "");
    HostFields(lower, host.tx, "", price);
    LastFieldTakes(f, z, LegsText(lower, mid));
    HostTakes(lower, host, mid, "", price);
  }

  lemma HostTakes(lower: string -> string, host: Leg, mid: seq<Leg>, priority: string, price: string)
    requires host.Tx? && Signs(host) && Settles(lower, priority) && Settles(lower, price)
    requires IsLegacy(host.tx) ==> ReadNumber(price, U128_LIMIT).Ok?
    requires FieldsText(Fields(lower, Host(host.tx, priority, price))) + "\n" == FieldsText(Fields(lower, host.tx)) + "\n" + LegsText(lower, mid)
    ensures
      var leg := Tx(host.chainId, Host(host.tx, priority, price));
      Signs(leg) && LegsText(lower, [leg]) == LegsText(lower, [host] + mid)
  {
    var leg := Tx(host.chainId, Host(host.tx, priority, price));
    SigningReads(host);
    HostReads(lower, host.tx, priority, price);
    TypedExactly(leg.tx, leg.chainId);
    LegsTextIs(lower, [leg]);
    LegsTextIs(lower, [host] + mid);
    assert ([host] + mid)[1..] == mid && [leg][1..] == [];
    var d, x, y := Dec(host.chainId) + "\n", FieldsText(Fields(lower, leg.tx)), FieldsText(Fields(lower, host.tx));
    BodiesMeet("tx" + "\n", d, x, y, LegsText(lower, mid));
  }

  lemma HexDigest(lower: string -> string, digest: string)
    requires Folds(lower) && IsHex(digest, 64)
    ensures Signs(Digest(digest, "")) && DigestText(lower, digest) == digest && Still(lower, digest) && !IsWhite(digest[63])
  {
    assert forall i :: 0 <= i < 64 ==> IsLowerHex(digest[i]);
    TrimKeepsBounded(digest);
    assert !StartsWith(digest, "0x") && !StartsWith(digest, "0X") by {
      assert digest[1] != 'x' && digest[1] != 'X';
    }
    LowerFixesSettled(lower, digest);
    HexReads(digest);
  }

  lemma {:induction false} HexReads(s: string)
    requires |s| % 2 == 0 && forall i :: 0 <= i < |s| ==> IsLowerHex(s[i])
    ensures HexDecode(s).Some? && |HexDecode(s).value| == |s| / 2
  {
    if s != "" {
      HexReads(s[2..]);
    }
  }

  /** An opaque digest in the gas price: one transaction, and the same with that digest after it. */
  lemma ADigestFolds(lower: string -> string, chainId: nat, tx: UnsignedTx, digest: string)
    requires Folds(lower) && Signs(Tx(chainId, tx)) && !IsLegacy(tx) && tx.gasPrice == "" && IsHex(digest, 64)
    ensures
      var one := Tx(chainId, tx.(gasPrice := [UNIT_SEPARATOR] + "\n" + ("digest\n" + digest)));
      && Signs(one) && Signs(Digest(digest, ""))
      && LegsText(lower, [one]) == LegsText(lower, [Tx(chainId, tx)] + [Digest(digest, "")])
  {
    HexDigest(lower, digest);
    DigestAlone(lower, digest);
    DigestEnds(lower, digest);
    PriceOfBlank(lower, Tx(chainId, tx), [Digest(digest, "")], "digest\n" + digest);
  }

  lemma DigestAlone(lower: string -> string, digest: string)
    requires DigestText(lower, digest) == digest
    ensures LegsText(lower, [Digest(digest, "")]) == "digest\n" + digest + [UNIT_SEPARATOR] + "\n"
  {
    var mid := [Digest(digest, "")];
    LegsTextIs(lower, mid);
    assert mid[1..] == [];
    DigestParts(digest);
  }

  lemma DigestParts(d: string)
    ensures "digest" + "\n" + (d + [UNIT_SEPARATOR] + "" + "\n" + "") == "digest\n" + d + [UNIT_SEPARATOR] + "\n"
  {
  }

  lemma DigestEnds(lower: string -> string, digest: string)
    requires Folds(lower) && Still(lower, digest) && digest != "" && !IsWhite(digest[|digest| - 1])
    ensures
      var z := "digest\n" + digest;
      Still(lower, z) && z != "" && !IsWhite(z[|z| - 1])
  {
    LowerFixesSettled(lower, "digest");
    StillApart(lower, "digest", '\n', digest);
    assert "digest" + ['\n'] + digest == "digest\n" + digest;
    LastOf("digest\n", digest);
  }

  lemma PriceOfBlank(lower: string -> string, host: Leg, mid: seq<Leg>, z: string)
    requires Folds(lower) && host.Tx? && Signs(host) && !IsLegacy(host.tx) && host.tx.gasPrice == ""
    requires LegsText(lower, mid) == z + [UNIT_SEPARATOR] + "\n" && Still(lower, z) && z != "" && !IsWhite(z[|z| - 1])
    ensures
      var leg := Tx(host.chainId, host.tx.(gasPrice := [UNIT_SEPARATOR] + "\n" + z));
      Signs(leg) && LegsText(lower, [leg]) == LegsText(lower, [host] + mid)
  {
    BlankIsBlank(lower);
    NothingInFront(z);
    TextInThePrice(lower, host, mid, z);
  }

  lemma BlankIsBlank(lower: string -> string)
    requires Lowercases(lower)
    ensures lower(Trim("")) == ""
  {
    LowerFixesSettled(lower, "");
  }

  lemma NothingInFront(z: string)
    ensures "" + [UNIT_SEPARATOR] + ("\n" + z) == [UNIT_SEPARATOR] + "\n" + z
  {
  }

  /** A whole transaction in the gas price: one transaction, and that one with another after it. */
  lemma ATransactionFolds(lower: string -> string, chainId: nat, tx: UnsignedTx, other: Leg)
    requires Folds(lower) && Signs(Tx(chainId, tx)) && !IsLegacy(tx) && tx.gasPrice == "" && other.Tx? && Presentable(other)
    ensures |LegsText(lower, [other])| > 2
    ensures
      var text := LegsText(lower, [other]);
      var one := Tx(chainId, tx.(gasPrice := [UNIT_SEPARATOR] + "\n" + text[..|text| - 2]));
      Signs(one) && LegsText(lower, [one]) == LegsText(lower, [Tx(chainId, tx)] + [other])
  {
    var z := TxAlone(lower, other);
    CutEnd(LegsText(lower, [other]), z);
    PriceOfBlank(lower, Tx(chainId, tx), [other], z);
  }

  lemma TxAlone(lower: string -> string, other: Leg) returns (z: string)
    requires Folds(lower) && other.Tx? && Presentable(other)
    ensures LegsText(lower, [other]) == z + [UNIT_SEPARATOR] + "\n" && z != "" && !IsWhite(z[|z| - 1]) && Still(lower, z)
  {
    LowerFixesSettled(lower, "");
    assert StillLeg(lower, other);
    z := SeriesEnds(lower, [other]);
  }

  lemma CutEnd(text: string, z: string)
    requires text == z + [UNIT_SEPARATOR] + "\n" && z != ""
    ensures |text| > 2 && text[..|text| - 2] == z
  {
  }
}
