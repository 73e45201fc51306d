/**
 Where a text can end like a transaction does.

 In the text of a plain bundle a separator stands in front of a newline only at the end of a
 transaction, or of a digest and its first, empty, line. A transaction that signs, whatever its
 unread fields hold, therefore covers a whole number of a plain bundle's atoms.
 */
module Cutting {
  import opened Base
  import opened Text
  import opened TxForm
  import opened Commitment
  import opened Grouping
  import opened Ambiguity
  import opened Rereading
  import opened CaseFold

  // ---- where a transaction can end -----------------------------------------------------

  /** What every transaction ends with: its last separator and its newline. */
  function Marked(y: string, rest: string): string {
    y + [UNIT_SEPARATOR] + ("\n" + rest)
  }

  predicate Breaks(s: string) {
    s != "" && s[0] == '\n'
  }

  predicate Strict(atom: Atom) {
    ValidAtom(atom) && (atom.TxAtom? ==> forall i :: 0 <= i < |atom.fields| ==> !Breaks(atom.fields[i]))
  }

  ghost predicate AllStrict(atoms: seq<Atom>) {
    forall i {:trigger Strict(atoms[i])} :: 0 <= i < |atoms| ==> Strict(atoms[i])
  }

  /** After these a text ends with a separator and a newline. */
  predicate Ends(atoms: seq<Atom>, n: nat)
    requires 0 < n <= |atoms|
  {
    atoms[n - 1].TxAtom? || (n > 1 && atoms[n - 2].DigestAtom? && atoms[n - 1] == Line(""))
  }

  /** Only at the end of the fields is there a separator in front of a newline. */
  lemma {:induction false} MarkAtEnd(pre: string, fields: seq<string>, tail: string, y: string, rest: string)
    requires Free(pre, UNIT_SEPARATOR) && AllFree(fields, UNIT_SEPARATOR)
    requires forall i :: 0 < i < |fields| ==> !Breaks(fields[i])
    requires pre + FieldsText(fields) + ("\n" + tail) == Marked(y, rest)
    requires |y| < |pre| + |FieldsText(fields)|
    ensures |y| + 1 == |pre| + |FieldsText(fields)| && rest == tail
    decreases |fields|
  {
    var all := pre + FieldsText(fields) + ("\n" + tail);
    assert all[|y|] == UNIT_SEPARATOR;
    assert fields == [] ==> pre + FieldsText(fields) == pre;
    if fields != [] {
      var piece, more := pre + fields[0], FieldsText(fields[1..]);
      assert all == piece + [UNIT_SEPARATOR] + (more + ("\n" + tail));
      assert |y| >= |piece|;
      if |y| == |piece| {
        MarkHere(piece, fields[1..], tail, y, rest);
      } else {
        var y2 := y[|piece| + 1..];
        assert y[..|piece| + 1] == all[..|piece| + 1] == piece + [UNIT_SEPARATOR];
        assert y == piece + [UNIT_SEPARATOR] + y2;
        assert all[|piece| + 1..] == more + ("\n" + tail) == "" + more + ("\n" + tail);
        assert Marked(y, rest)[|piece| + 1..] == Marked(y2, rest);
        MarkAtEnd("", fields[1..], tail, y2, rest);
      }
    }
  }

  lemma MarkHere(piece: string, more: seq<string>, tail: string, y: string, rest: string)
    requires piece + [UNIT_SEPARATOR] + (FieldsText(more) + ("\n" + tail)) == Marked(y, rest) && |y| == |piece|
    requires more != [] ==> !Breaks(more[0])
    ensures more == [] && rest == tail
  {
    var all := piece + [UNIT_SEPARATOR] + (FieldsText(more) + ("\n" + tail));
    assert all[|piece| + 1..] == FieldsText(more) + ("\n" + tail);
    assert Marked(y, rest)[|y| + 1..] == "\n" + rest;
    assert (FieldsText(more) + ("\n" + tail))[0] == '\n';
    FieldsStart(more, "\n" + tail);
    assert more == [] ==> FieldsText(more) + ("\n" + tail) == "\n" + tail;
    assert ("\n" + tail)[1..] == tail && ("\n" + rest)[1..] == rest;
  }

  lemma FieldsStart(fields: seq<string>, rest: string)
    ensures fields != [] && !Breaks(fields[0]) ==> FieldsText(fields) + rest != "" && (FieldsText(fields) + rest)[0] != '\n'
  {
    if fields != [] {
      assert FieldsText(fields) + rest == fields[0] + [UNIT_SEPARATOR] + (FieldsText(fields[1..]) + rest);
    }
  }

  lemma TxTextIs(chainId: nat, fields: seq<string>, rest: string)
    ensures AtomText(TxAtom(chainId, fields)) + rest == "tx" + "\n" + (Dec(chainId) + "\n") + FieldsText(fields) + ("\n" + rest)
  {
    var c, f := Dec(chainId), FieldsText(fields);
    assert "tx" + "\n" + (c + "\n" + (f + "\n")) + rest == "tx" + "\n" + (c + "\n") + f + ("\n" + rest);
  }

  lemma TxHeadFree(chainId: nat)
    ensures Free("tx" + "\n" + (Dec(chainId) + "\n"), UNIT_SEPARATOR)
  {
    DecIsPlain(chainId);
  }

  /** A text that ends like a transaction ends where an atom does. */
  lemma {:induction false} CutAfterMark(atoms: seq<Atom>, y: string, rest: string) returns (n: nat)
    requires AllStrict(atoms) && AtomsText(atoms) == Marked(y, rest)
    ensures 0 < n <= |atoms| && Ends(atoms, n)
    ensures AtomsText(atoms[..n]) == Marked(y, "") && AtomsText(atoms[n..]) == rest
    decreases |atoms|
  {
    if |AtomText(atoms[0])| <= |y| {
      var y2 := PastFirst(atoms, y, rest);
      var m := CutAfterMark(atoms[1..], y2, rest);
      n := m + 1;
      OneAtomMore(atoms, m, y2);
    } else {
      n := CutInFirst(atoms, y, rest);
    }
  }

  lemma PastFirst(atoms: seq<Atom>, y: string, rest: string) returns (y2: string)
    requires atoms != [] && AtomsText(atoms) == Marked(y, rest) && |AtomText(atoms[0])| <= |y|
    ensures y == AtomText(atoms[0]) + y2 && AtomsText(atoms[1..]) == Marked(y2, rest)
  {
    var head, tail := AtomText(atoms[0]), AtomsText(atoms[1..]);
    y2 := y[|head|..];
    assert Marked(y, rest)[..|head|] == y[..|head|] && (head + tail)[..|head|] == head;
    assert Marked(y, rest)[|head|..] == Marked(y2, rest) && (head + tail)[|head|..] == tail;
  }

  lemma OneAtomMore(atoms: seq<Atom>, m: nat, y2: string)
    requires atoms != [] && 0 < m <= |atoms| - 1 && AtomsText(atoms[1..][..m]) == Marked(y2, "") && Ends(atoms[1..], m)
    ensures AtomsText(atoms[..m + 1]) == Marked(AtomText(atoms[0]) + y2, "") && Ends(atoms, m + 1)
    ensures atoms[m + 1..] == atoms[1..][m..]
  {
    assert atoms[..m + 1][0] == atoms[0] && atoms[..m + 1][1..] == atoms[1..][..m];
    assert AtomText(atoms[0]) + Marked(y2, "") == Marked(AtomText(atoms[0]) + y2, "");
  }

  lemma CutInFirst(atoms: seq<Atom>, y: string, rest: string) returns (n: nat)
    requires AllStrict(atoms) && atoms != [] && AtomsText(atoms) == Marked(y, rest) && |y| < |AtomText(atoms[0])|
    ensures 0 < n <= |atoms| && Ends(atoms, n)
    ensures AtomsText(atoms[..n]) == Marked(y, "") && AtomsText(atoms[n..]) == rest
  {
    var head, tail := AtomText(atoms[0]), AtomsText(atoms[1..]);
    assert Strict(atoms[0]);
    assert (head + tail)[|y|] == head[|y|] && Marked(y, rest)[|y|] == UNIT_SEPARATOR;
    if atoms[0].TxAtom? {
      CutAtTx(atoms[0].chainId, atoms[0].fields, tail, y, rest);
      n := 1;
      assert atoms[..1] == [atoms[0]] && atoms[..1][1..] == [];
    } else {
      assert atoms[0].DigestAtom?;
      n := CutInDigest(atoms, y, rest);
    }
  }

  lemma CutAtTx(chainId: nat, fields: seq<string>, tail: string, y: string, rest: string)
    requires AllFree(fields, UNIT_SEPARATOR) && forall i :: 0 <= i < |fields| ==> !Breaks(fields[i])
    requires AtomText(TxAtom(chainId, fields)) + tail == Marked(y, rest) && |y| < |AtomText(TxAtom(chainId, fields))|
    ensures AtomText(TxAtom(chainId, fields)) == Marked(y, "") && rest == tail
  {
    var head, pre := AtomText(TxAtom(chainId, fields)), "tx" + "\n" + (Dec(chainId) + "\n");
    TxTextIs(chainId, fields, tail);
    TxTextIs(chainId, fields, "");
    TxHeadFree(chainId);
    assert |head + ""| == |pre + FieldsText(fields) + ("\n" + "")|;
    assert head[|head| - 1] == (head + "")[|head| - 1] == '\n';
    assert (head + tail)[|y|] == head[|y|] && Marked(y, rest)[|y|] == UNIT_SEPARATOR;
    MarkAtEnd(pre, fields, tail, y, rest);
    assert head == (head + tail)[..|head|] == Marked(y, rest)[..|y| + 2] == Marked(y, "");
  }

  lemma CutInDigest(atoms: seq<Atom>, y: string, rest: string) returns (n: nat)
    requires AllStrict(atoms) && atoms != [] && atoms[0].DigestAtom? && AtomsText(atoms) == Marked(y, rest) && |y| < |AtomText(atoms[0])|
    ensures n == 2 <= |atoms| && Ends(atoms, n)
    ensures AtomsText(atoms[..n]) == Marked(y, "") && AtomsText(atoms[n..]) == rest
  {
    var head, tail := AtomText(atoms[0]), AtomsText(atoms[1..]);
    assert Strict(atoms[0]);
    assert (head + tail)[|y|] == head[|y|] && Marked(y, rest)[|y|] == UNIT_SEPARATOR;
    assert |y| == |head| - 1;
    assert (head + tail)[|head|..] == tail && Marked(y, rest)[|head|..] == "\n" + rest;
    n := 2;
    FirstIsEmptyLine(atoms[1..], rest);
    assert atoms[..2] == [atoms[0]] + [atoms[1]] && atoms[..2][1..] == [atoms[1]] && [atoms[1]][1..] == [];
    assert head == (head + tail)[..|head|] == Marked(y, rest)[..|y| + 1] == y + [UNIT_SEPARATOR];
    assert AtomsText([atoms[1]]) == "\n";
    assert y + [UNIT_SEPARATOR] + "\n" == Marked(y, "");
    assert atoms[1..][1..] == atoms[2..];
  }

  lemma FirstIsEmptyLine(atoms: seq<Atom>, rest: string)
    requires AllStrict(atoms) && AtomsText(atoms) == "\n" + rest
    ensures atoms != [] && atoms[0] == Line("") && AtomsText(atoms[1..]) == rest
  {
    assert ("\n" + rest)[0] == '\n';
    var head, tail := AtomText(atoms[0]), AtomsText(atoms[1..]);
    assert Strict(atoms[0]);
    assert (head + tail)[0] == head[0];
    match atoms[0] {
      case Line(text) =>
        assert text == "";
        assert head == "\n" && (head + tail)[1..] == tail && ("\n" + rest)[1..] == rest;
      case TxAtom(_, _) => assert false;
      case DigestAtom(_) => assert false;
    }
  }

  // ---- one text, read as plain atoms and as any that sign ------------------------------

  /** A leg that signs, and whose purpose was shown. Of a transaction, only what is read is asked. */
  predicate Signs(leg: Leg) {
    PayloadOf(leg).Ok? && (leg.Digest? ==> Displayable(leg.purpose))
  }

  predicate AllSign(legs: seq<Leg>) {
    forall i {:trigger Signs(legs[i])} :: 0 <= i < |legs| ==> Signs(legs[i])
  }

  lemma SigningTail(legs: seq<Leg>)
    requires AllSign(legs) && legs != []
    ensures Signs(legs[0]) && AllSign(legs[1..])
  {
    forall i | 0 <= i < |legs| - 1 ensures Signs(legs[1..][i]) {
      assert Signs(legs[i + 1]);
    }
  }

  lemma PresentableSigns(legs: seq<Leg>)
    requires AllPresentable(legs)
    ensures AllSign(legs)
  {
    forall i | 0 <= i < |legs| ensures Signs(legs[i]) {
      assert Presentable(legs[i]);
    }
  }

  /** With its unread fields blank, a leg that signs is presentable. */
  function Blank(leg: Leg): Leg {
    if leg.Tx? then Tx(leg.chainId, if IsLegacy(leg.tx) then leg.tx.(maxFeePerGas := "", maxPriorityFeePerGas := "")
                                 else leg.tx.(gasPrice := ""))
    else leg
  }

  lemma NumbersAreOneLine(t: string, limit: nat)
    requires ReadNumber(t, limit).Ok?
    ensures AllAscii(t) && Free(t, '\n') && Free(t, UNIT_SEPARATOR)
  {
    NumberIgnoresCase(t, limit);
    if t != "" {
      NumberChars(t, limit);
    }
  }

  lemma NumberChars(t: string, limit: nat)
    requires t != "" && ReadNumber(t, limit).Ok?
    ensures Free(t, '\n') && Free(t, UNIT_SEPARATOR)
  {
    var hex := StripHexMark(t);
    var s := if hex.Some? then hex.value else t;
    var digits := WithoutPlus(s);
    forall i | 0 <= i < |s| ensures s[i] != '\n' && s[i] != UNIT_SEPARATOR {
      assert s[i] == '+' || (i >= |s| - |digits| && s[i] == digits[i - (|s| - |digits|)] && DigitValue(digits[i - (|s| - |digits|)]) < 16);
    }
    if hex.Some? {
      assert t[..2] == "0x" || t[..2] == "0X";
      assert t == t[..2] + s;
    }
  }

  predicate IsLegacy(tx: UnsignedTx) {
    Trim(tx.feeMode) == "legacy"
  }

  /** Everything that is read reads. */
  predicate Reads(tx: UnsignedTx) {
    && ReadRecipient(ToText(tx), tx.create).Ok? && !tx.accessList
    && ReadNumber(Trim(tx.value), U256_LIMIT).Ok? && ReadU64(Trim(tx.nonce)).Ok? && ReadU64(Trim(tx.gasLimit)).Ok?
    && ReadBytes(Trim(tx.data)).Ok? && ReadFeeMode(Trim(tx.feeMode)).Ok? && FeesRead(tx, IsLegacy(tx))
  }

  lemma TypedExactly(tx: UnsignedTx, chainId: nat)
    ensures Typed(tx, chainId).Ok? <==> Reads(tx)
  {
  }

  lemma FeeModeIsPlain(t: string)
    requires ReadFeeMode(t).Ok?
    ensures Free(t, UNIT_SEPARATOR)
  {
  }

  lemma HexIsPlain(t: string)
    requires ReadBytes(t).Ok? || ReadAddress(t).Ok?
    ensures Free(t, UNIT_SEPARATOR) && Free(t, '\n')
  {
    MarkedHexHasNoBreaks(t);
  }

  lemma FrontIsPlain(tx: UnsignedTx)
    requires Reads(tx)
    ensures Free(ToText(tx), UNIT_SEPARATOR) && Free(Trim(tx.value), UNIT_SEPARATOR)
    ensures Free(Trim(tx.nonce), UNIT_SEPARATOR) && Free(Trim(tx.gasLimit), UNIT_SEPARATOR)
    ensures Free(Trim(tx.data), UNIT_SEPARATOR) && Free(Trim(tx.feeMode), UNIT_SEPARATOR)
  {
    if ToText(tx) != "" {
      HexIsPlain(ToText(tx));
    }
    NumbersAreOneLine(Trim(tx.value), U256_LIMIT);
    NumbersAreOneLine(Trim(tx.nonce), U128_LIMIT);
    NumbersAreOneLine(Trim(tx.gasLimit), U128_LIMIT);
    HexIsPlain(Trim(tx.data));
    FeeModeIsPlain(Trim(tx.feeMode));
  }

  lemma FeesArePlain(tx: UnsignedTx)
    requires Reads(tx)
    ensures if IsLegacy(tx) then Free(Trim(tx.gasPrice), UNIT_SEPARATOR)
            else Free(Trim(tx.maxFeePerGas), UNIT_SEPARATOR) && Free(Trim(tx.maxPriorityFeePerGas), UNIT_SEPARATOR)
  {
    if IsLegacy(tx) {
      NumbersAreOneLine(Trim(tx.gasPrice), U128_LIMIT);
    } else {
      NumbersAreOneLine(Trim(tx.maxFeePerGas), U128_LIMIT);
      NumbersAreOneLine(Trim(tx.maxPriorityFeePerGas), U128_LIMIT);
    }
  }

  lemma BlankIsPresentable(leg: Leg)
    requires Signs(leg)
    ensures Presentable(Blank(leg))
  {
    if leg.Tx? {
      var blank := Blank(leg).tx;
      TypedExactly(leg.tx, leg.chainId);
      assert Reads(blank);
      TypedExactly(blank, leg.chainId);
      FrontIsPlain(blank);
      FeesArePlain(blank);
      assert Trim("") == "";
    }
  }

  /** The fields the signature rests on. */
  predicate IsRead(tx: UnsignedTx, i: nat) {
    i < 7 || (if IsLegacy(tx) then i == 9 else i == 7 || i == 8)
  }

  lemma BlankKeepsRead(lower: string -> string, leg: Leg, i: nat)
    requires leg.Tx? && IsRead(leg.tx, i)
    ensures Fields(lower, Blank(leg).tx)[i] == Fields(lower, leg.tx)[i]
  {
    FieldsAre(lower, leg.tx, i);
    FieldsAre(lower, Blank(leg).tx, i);
  }

  /** Read fields are free of separators, and the first one is a line. */
  lemma SigningFields(lower: string -> string, leg: Leg)
    requires Lowercases(lower) && Signs(leg) && leg.Tx?
    ensures |Fields(lower, leg.tx)| == 10 && Free(Fields(lower, leg.tx)[0], '\n')
    ensures forall i :: 0 <= i < 10 && IsRead(leg.tx, i) ==> Free(Fields(lower, leg.tx)[i], UNIT_SEPARATOR)
  {
    var blank := Blank(leg);
    BlankIsPresentable(leg);
    PresentableIsClean(lower, blank);
    BlankKeepsRead(lower, leg, 0);
    forall i: nat | i < 10 && IsRead(leg.tx, i) ensures Free(Fields(lower, leg.tx)[i], UNIT_SEPARATOR) {
      BlankKeepsRead(lower, leg, i);
    }
  }

  lemma LegIsTellable(lower: string -> string, leg: Leg)
    requires Lowercases(lower) && Signs(leg)
    ensures AllTellable(LegAtoms(lower, leg))
  {
    if leg.Tx? {
      SigningFields(lower, leg);
      assert IsRead(leg.tx, 0);
    } else {
      assert Presentable(leg);
      PresentableIsClean(lower, leg);
      LegAtomsValid(lower, leg);
      ValidAreTellable(LegAtoms(lower, leg));
    }
  }

  lemma {:induction false} SigningIsTellable(lower: string -> string, b: seq<Leg>)
    requires Lowercases(lower) && AllSign(b)
    ensures AllTellable(Atoms(lower, b))
  {
    if b != [] {
      SigningTail(b);
      LegIsTellable(lower, b[0]);
      SigningIsTellable(lower, b[1..]);
    }
  }

  lemma LegIsStrict(lower: string -> string, leg: Leg)
    requires Folds(lower) && Presentable(leg)
    ensures AllStrict(LegAtoms(lower, leg))
  {
    PresentableIsClean(lower, leg);
    LegAtomsValid(lower, leg);
    var atoms := LegAtoms(lower, leg);
    if leg.Tx? {
      FieldsSettle(lower, leg.tx);
    }
    forall i | 0 <= i < |atoms| ensures Strict(atoms[i]) {
      assert ValidAtom(atoms[i]);
    }
  }

  lemma {:induction false} PresentableIsStrict(lower: string -> string, a: seq<Leg>)
    requires Folds(lower) && AllPresentable(a)
    ensures AllStrict(Atoms(lower, a))
  {
    if a != [] {
      assert Presentable(a[0]);
      LegIsStrict(lower, a[0]);
      PresentableIsStrict(lower, a[1..]);
    }
  }

  // ---- leg by leg ----------------------------------------------------------------------

  lemma StrictAreTellable(atoms: seq<Atom>)
    requires AllStrict(atoms)
    ensures AllTellable(atoms)
  {
    forall i | 0 <= i < |atoms| ensures Tellable(atoms[i]) {
      assert Strict(atoms[i]);
    }
  }

  lemma SamePart(head: string, x: string, y: string)
    requires head + x == head + y
    ensures x == y
  {
    assert (head + x)[|head|..] == x && (head + y)[|head|..] == y;
  }

  /** Two readings of one text begin with atoms of one kind, and unless they are transactions with the same one. */
  lemma SameFirstAtom(x: seq<Atom>, y: seq<Atom>)
    requires AllStrict(x) && AllTellable(y) && AtomsText(x) == AtomsText(y)
    ensures x == [] <==> y == []
    ensures x != [] ==> x[0].TxAtom? == y[0].TxAtom?
    ensures x != [] && !x[0].TxAtom? ==> x[0] == y[0] && AtomsText(x[1..]) == AtomsText(y[1..])
  {
    StrictAreTellable(x);
    SameOpenings(x, y);
    SameHeads(x, y);
    if x != [] && !x[0].TxAtom? {
      SamePart(AtomText(x[0]), AtomsText(x[1..]), AtomsText(y[1..]));
    }
  }

  predicate NoTx(atoms: seq<Atom>) {
    forall i :: 0 <= i < |atoms| ==> !atoms[i].TxAtom?
  }

  /** Atoms that are no transactions are read off one by one. */
  lemma {:induction false} PeelText(x: seq<Atom>, own: seq<Atom>, more: seq<Atom>)
    requires AllStrict(x) && AllTellable(own) && AllTellable(more) && NoTx(own) && AtomsText(x) == AtomsText(own + more)
    ensures |own| <= |x| && x[..|own|] == own && AtomsText(x[|own|..]) == AtomsText(more)
    decreases |own|
  {
    if own == [] {
      assert own + more == more && x[0..] == x;
    } else {
      var y := own + more;
      assert y[0] == own[0] && y[1..] == own[1..] + more;
      SameFirstAtom(x, y);
      PeelText(x[1..], own[1..], more);
      assert x[1..][..|own| - 1] == x[1..|own|] && x[1..][|own| - 1..] == x[|own|..];
    }
  }

  /** Where a transaction begins, a leg does. */
  lemma {:induction false} TxBeginsALeg(lower: string -> string, a: seq<Leg>, p: nat) returns (i: nat)
    requires p < |Atoms(lower, a)| && Atoms(lower, a)[p].TxAtom?
    ensures i < |a| && a[i].Tx? && Atoms(lower, a)[p..] == Atoms(lower, a[i..])
    decreases |a|
  {
    LegEnds(lower, a[0]);
    var k := |LegAtoms(lower, a[0])|;
    if p == 0 {
      i := 0;
      assert a[0..] == a && Atoms(lower, a)[0..] == Atoms(lower, a);
    } else {
      InTheRest(LegAtoms(lower, a[0]), Atoms(lower, a[1..]), p);
      var m := TxBeginsALeg(lower, a[1..], p - k);
      i := m + 1;
      assert a[i..] == a[1..][m..];
    }
  }

  lemma InTheRest(own: seq<Atom>, rest: seq<Atom>, p: nat)
    requires own != [] && (forall i :: 0 < i < |own| ==> own[i].Line?)
    requires 0 < p < |own + rest| && (own + rest)[p].TxAtom?
    ensures p >= |own| && (own + rest)[p..] == rest[p - |own|..] && rest[p - |own|].TxAtom?
  {
    forall i | 0 < i < |own| ensures (own + rest)[i].Line? {
      assert (own + rest)[i] == own[i];
    }
  }

  /** What a folded series of legs can end with, where no more is asked of it. */
  predicate Closing(leg: Leg) {
    leg.Tx? || (leg.Digest? && leg.purpose == "")
  }

  lemma LegEnds(lower: string -> string, leg: Leg)
    ensures
      var atoms := LegAtoms(lower, leg);
      && |atoms| > 0 && (leg.Tx? <==> |atoms| == 1) && (atoms[0].TxAtom? <==> leg.Tx?) && (atoms[0].DigestAtom? <==> leg.Digest?)
      && (forall i :: 0 < i < |atoms| ==> atoms[i].Line?)
      && (leg.Digest? && |atoms| == 2 && atoms[1] == Line("") ==> leg.purpose == "")
  {
    LegAtomsShape(lower, leg);
    var atoms := LegAtoms(lower, leg);
    forall i | 0 < i < |atoms| ensures atoms[i].Line? {
      assert atoms[i] == atoms[1..][i - 1];
    }
    if leg.Digest? && |atoms| == 2 && atoms[1] == Line("") {
      assert atoms[1] == atoms[1..][0] == Line(Lines(leg.purpose)[0]);
      assert Lines(leg.purpose) == [""];
      JoinSplit(leg.purpose, '\n');
    }
  }

  /** Atoms that end like a transaction are those of some legs, the last of them cut short if need be. */
  lemma {:induction false} CutLegs(lower: string -> string, a: seq<Leg>, n: nat) returns (g: seq<Leg>)
    requires AllPresentable(a) && 0 < n <= |Atoms(lower, a)| && Ends(Atoms(lower, a), n)
    ensures g != [] && AllPresentable(g) && Atoms(lower, g) == Atoms(lower, a)[..n]
    ensures Closing(g[|g| - 1]) && (a[0].Tx? ==> g[0] == a[0])
    decreases |a|
  {
    assert Presentable(a[0]);
    var own := LegAtoms(lower, a[0]);
    if n <= |own| {
      g := CutFirst(lower, a, n);
    } else {
      AtomsOfFirst(lower, a);
      PastTheFirst(lower, a[0], Atoms(lower, a), Atoms(lower, a[1..]), n);
      PresentableTail(a);
      var tail := CutLegs(lower, a[1..], n - |own|);
      CutJoined(lower, a, n, tail);
      g := [a[0]] + tail;
    }
  }

  lemma AtomsOfFirst(lower: string -> string, a: seq<Leg>)
    requires a != []
    ensures Atoms(lower, a) == LegAtoms(lower, a[0]) + Atoms(lower, a[1..])
  {
  }

  lemma PastTheFirst(lower: string -> string, leg: Leg, all: seq<Atom>, rest: seq<Atom>, n: nat)
    requires all == LegAtoms(lower, leg) + rest && |LegAtoms(lower, leg)| < n <= |all| && Ends(all, n)
    ensures n - |LegAtoms(lower, leg)| <= |rest| && Ends(rest, n - |LegAtoms(lower, leg)|)
  {
    LegShape(lower, leg);
    EndsInTheRest(all, LegAtoms(lower, leg), rest, n);
  }

  lemma PrefixOf(own: seq<Atom>, rest: seq<Atom>, n: nat)
    requires |own| <= n <= |own| + |rest|
    ensures (own + rest)[..n] == own + rest[..n - |own|]
  {
  }

  lemma LegShape(lower: string -> string, leg: Leg)
    ensures
      var own := LegAtoms(lower, leg);
      own != [] && (forall i :: 0 < i < |own| ==> own[i].Line?) && (own[0].DigestAtom? ==> |own| > 1)
  {
    LegEnds(lower, leg);
  }

  lemma CutJoined(lower: string -> string, a: seq<Leg>, n: nat, tail: seq<Leg>)
    requires a != [] && |LegAtoms(lower, a[0])| < n <= |Atoms(lower, a)| && Ends(Atoms(lower, a), n)
    requires n - |LegAtoms(lower, a[0])| <= |Atoms(lower, a[1..])|
    requires Presentable(a[0]) && AllPresentable(tail) && tail != []
    requires Atoms(lower, tail) == Atoms(lower, a[1..])[..n - |LegAtoms(lower, a[0])|]
    ensures AllPresentable([a[0]] + tail) && Atoms(lower, [a[0]] + tail) == Atoms(lower, a)[..n]
    ensures ([a[0]] + tail)[|tail|] == tail[|tail| - 1]
  {
    PrefixOf(LegAtoms(lower, a[0]), Atoms(lower, a[1..]), n);
    LegInFront(lower, a[0], tail);
  }

  lemma PresentableTail(a: seq<Leg>)
    requires AllPresentable(a) && a != []
    ensures AllPresentable(a[1..])
  {
    forall i | 0 <= i < |a| - 1 ensures Presentable(a[1..][i]) {
      assert Presentable(a[i + 1]);
    }
  }

  lemma LegInFront(lower: string -> string, leg: Leg, tail: seq<Leg>)
    requires Presentable(leg) && AllPresentable(tail) && tail != []
    ensures AllPresentable([leg] + tail) && Atoms(lower, [leg] + tail) == LegAtoms(lower, leg) + Atoms(lower, tail)
    ensures ([leg] + tail)[|tail|] == tail[|tail| - 1]
  {
    var g := [leg] + tail;
    assert g[0] == leg && g[1..] == tail;
    forall i | 0 <= i < |g| ensures Presentable(g[i]) {
      assert i > 0 ==> Presentable(tail[i - 1]);
    }
  }

  lemma EndsInTheRest(all: seq<Atom>, own: seq<Atom>, rest: seq<Atom>, n: nat)
    requires own != [] && (forall i :: 0 < i < |own| ==> own[i].Line?) && (own[0].DigestAtom? ==> |own| > 1)
    requires all == own + rest && |own| < n <= |all| && Ends(all, n)
    ensures n - |own| <= |rest| && Ends(rest, n - |own|)
  {
    var k := |own|;
    assert all[n - 1] == rest[n - k - 1];
    assert n - k > 1 ==> all[n - 2] == rest[n - k - 2];
    assert n - k == 1 ==> all[n - 2] == own[k - 1];
  }

  lemma CutFirst(lower: string -> string, a: seq<Leg>, n: nat) returns (g: seq<Leg>)
    requires a != [] && Presentable(a[0]) && 0 < n <= |LegAtoms(lower, a[0])| && Ends(Atoms(lower, a), n)
    ensures |g| == 1 && AllPresentable(g) && Atoms(lower, g) == Atoms(lower, a)[..n]
    ensures Closing(g[0]) && (a[0].Tx? ==> g[0] == a[0])
  {
    LegEnds(lower, a[0]);
    var own := LegAtoms(lower, a[0]);
    var all := Atoms(lower, a);
    assert all == own + Atoms(lower, a[1..]);
    assert all[n - 1] == own[n - 1] && (n > 1 ==> all[n - 2] == own[n - 2]) && all[..n] == own[..n];
    if a[0].Tx? {
      g := [a[0]];
      AtomsOfOne(lower, a[0]);
      assert own[..1] == own;
    } else {
      assert n == 2 && a[0].Digest? && own[1] == Line("");
      var short := Digest(a[0].digest, "");
      g := [short];
      AtomsOfOne(lower, short);
      EmptyPurpose(lower, a[0]);
      assert own[..2] == [own[0], own[1]];
    }
  }

  lemma EmptyPurpose(lower: string -> string, leg: Leg)
    requires leg.Digest? && Presentable(leg)
    ensures LegAtoms(lower, Digest(leg.digest, "")) == [LegAtoms(lower, leg)[0], Line("")]
    ensures Presentable(Digest(leg.digest, ""))
  {
    assert Lines("") == [""];
    assert Utf8Length("") == 0;
  }
}
