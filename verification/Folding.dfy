/**
 Legs folded into a field the signature does not read.

 An EIP-1559 transaction is signed without its gas price, and a legacy one without its two fee
 caps (`sign_parsed_tx` of rust-lib/src/keystore.rs), but the commitment covers them, and
 nothing looks at what they hold. A transaction can therefore carry the text of the legs after
 it there. Here: whatever signs with the text of a plain bundle is that bundle, read another way
 and folded.
 */
module Folding {
  import opened Base
  import opened Text
  import opened TxForm
  import opened Commitment
  import opened Grouping
  import opened Ambiguity
  import opened Rereading
  import opened CaseFold
  import opened Cutting

  // ---- any bundle that signs, unfolded -------------------------------------------------

  /** A text leg is itself; a transaction is a transaction and the legs folded into it. */
  ghost predicate UnfoldsTo(lower: string -> string, leg: Leg, g: seq<Leg>) {
    if !leg.Tx? then g == [leg]
    else g != [] && g[0].Tx? && AllPresentable(g) && Closing(g[|g| - 1]) && LegsText(lower, g) == LegsText(lower, [leg])
  }

  ghost function Unfolding(lower: string -> string): (Leg, seq<Leg>) -> bool {
    (leg: Leg, g: seq<Leg>) => UnfoldsTo(lower, leg, g)
  }

  ghost predicate Part(rel: (Leg, seq<Leg>) -> bool, b: seq<Leg>, c: seq<Leg>, cuts: seq<nat>, k: nat)
    requires k < |b| && |cuts| == |b| + 1
  {
    cuts[k] < cuts[k + 1] <= |c| && rel(b[k], c[cuts[k]..cuts[k + 1]])
  }

  /** Leg `k` is related to those from `cuts[k]` up to `cuts[k + 1]`. */
  ghost predicate Parted(rel: (Leg, seq<Leg>) -> bool, b: seq<Leg>, c: seq<Leg>, cuts: seq<nat>) {
    && |cuts| == |b| + 1 && cuts[0] == 0 && cuts[|b|] == |c|
    && forall k :: 0 <= k < |b| ==> Part(rel, b, c, cuts, k)
  }

  function Moved(cuts: seq<nat>, d: nat): seq<nat> {
    seq(|cuts|, i requires 0 <= i < |cuts| => cuts[i] + d)
  }

  /** How the text of a transaction ends. */
  lemma TxIsMarked(chainId: nat, fields: seq<string>, rest: string) returns (y: string)
    requires |fields| == 10
    ensures AtomText(TxAtom(chainId, fields)) + rest == Marked(y, rest)
    ensures AtomText(TxAtom(chainId, fields)) + "" == Marked(y, "")
  {
    var pre := "tx" + "\n" + (Dec(chainId) + "\n");
    var front := FieldsText(fields[..9]);
    y := pre + front + fields[9];
    FieldsTextSnoc(fields[..9], fields[9]);
    assert fields[..9] + [fields[9]] == fields;
    TxTextIs(chainId, fields, rest);
    TxTextIs(chainId, fields, "");
    MarkedParts(pre, front, fields[9], rest);
    MarkedParts(pre, front, fields[9], "");
  }

  lemma MarkedParts(pre: string, front: string, last: string, rest: string)
    ensures pre + (front + (last + [UNIT_SEPARATOR])) + ("\n" + rest) == Marked(pre + front + last, rest)
  {
  }

  lemma LegsTextOfOne(lower: string -> string, leg: Leg)
    ensures LegsText(lower, [leg]) == AtomsText(LegAtoms(lower, leg))
    ensures leg.Tx? ==> LegsText(lower, [leg]) == AtomText(TxAtom(leg.chainId, Fields(lower, leg.tx))) + ""
  {
    LegsAreAtoms(lower, [leg]);
    AtomsOfOne(lower, leg);
    if leg.Tx? {
      assert LegAtoms(lower, leg)[1..] == [];
    }
  }

  lemma StrictRest(atoms: seq<Atom>, p: nat)
    requires AllStrict(atoms) && p <= |atoms|
    ensures AllStrict(atoms[p..])
  {
    forall i | 0 <= i < |atoms[p..]| ensures Strict(atoms[p..][i]) {
      assert Strict(atoms[p + i]);
    }
  }

  predicate Stands(x: seq<Atom>, y: seq<Atom>) {
    x == y
  }

  /** These atoms' text is this. It keeps folded until a proof asks for it by `Stands`. */
  ghost predicate Spells(atoms: seq<Atom>, text: string) {
    forall x {:trigger Stands(atoms, x)} :: Stands(atoms, x) ==> AtomsText(x) == text
  }

  lemma SpellsOut(atoms: seq<Atom>, text: string)
    ensures Spells(atoms, text) <==> AtomsText(atoms) == text
  {
    if Spells(atoms, text) {
      assert Stands(atoms, atoms);
    }
  }

  lemma LegsSpell(lower: string -> string, legs: seq<Leg>)
    ensures Spells(Atoms(lower, legs), LegsText(lower, legs))
  {
    LegsAreAtoms(lower, legs);
    SpellsOut(Atoms(lower, legs), LegsText(lower, legs));
  }

  /** These atoms end those. */
  predicate TailOf(x: seq<Atom>, all: seq<Atom>) {
    |x| <= |all| && all[|all| - |x|..] == x
  }

  /** What is left of a plain bundle's atoms has the text of what is left of the other bundle. */
  ghost predicate Meet(lower: string -> string, a: seq<Leg>, x: seq<Atom>, b: seq<Leg>) {
    Folds(lower) && AllPresentable(a) && AllSign(b) && TailOf(x, Atoms(lower, a)) && Spells(x, LegsText(lower, b))
  }

  /** The same, folded until a proof asks for it by `Stands`. */
  ghost predicate Meeting(lower: string -> string, rel: (Leg, seq<Leg>) -> bool, a: seq<Leg>, x: seq<Atom>, b: seq<Leg>) {
    forall y {:trigger Stands(x, y)} :: Stands(x, y) ==> rel == Unfolding(lower) && Meet(lower, a, y, b)
  }

  lemma MeetOn(lower: string -> string, rel: (Leg, seq<Leg>) -> bool, a: seq<Leg>, x: seq<Atom>, b: seq<Leg>)
    requires rel == Unfolding(lower) && Meet(lower, a, x, b)
    ensures Meeting(lower, rel, a, x, b)
  {
  }

  /** Whatever signs with the text of a plain bundle unfolds to one with the same atoms. */
  lemma {:induction false} Unfold(lower: string -> string, rel: (Leg, seq<Leg>) -> bool, a: seq<Leg>, x: seq<Atom>, b: seq<Leg>)
    returns (c: seq<Leg>, cuts: seq<nat>)
    requires Meeting(lower, rel, a, x, b)
    ensures Atoms(lower, c) == x && Parted(rel, b, c, cuts)
    decreases |b|
  {
    if b == [] {
      NothingLeft(lower, rel, a, x);
      c, cuts := [], [0];
    } else {
      var g, n := UnfoldHead(lower, rel, a, x, b);
      var tail, more := Unfold(lower, rel, a, x[n..], b[1..]);
      c, cuts := g + tail, [0] + Moved(more, |g|);
      AtomsJoined(lower, g, tail, x, n);
      PartedOn(rel, b, g, tail, more);
    }
  }

  lemma AtomsJoined(lower: string -> string, g: seq<Leg>, tail: seq<Leg>, x: seq<Atom>, n: nat)
    requires n <= |x| && Atoms(lower, g) == x[..n] && Atoms(lower, tail) == x[n..]
    ensures Atoms(lower, g + tail) == x
  {
    AtomsConcat(lower, g, tail);
    BothParts(x, n);
  }

  lemma BothParts(x: seq<Atom>, n: nat)
    requires n <= |x|
    ensures x[..n] + x[n..] == x
  {
  }

  lemma NothingLeft(lower: string -> string, rel: (Leg, seq<Leg>) -> bool, a: seq<Leg>, x: seq<Atom>)
    requires Meeting(lower, rel, a, x, [])
    ensures x == []
  {
    assert Stands(x, x);
    StrictFrom(lower, a, x);
    SpellsOut(x, "");
    SameFirstAtom(x, []);
  }

  lemma UnfoldHead(lower: string -> string, rel: (Leg, seq<Leg>) -> bool, a: seq<Leg>, x: seq<Atom>, b: seq<Leg>)
    returns (g: seq<Leg>, n: nat)
    requires b != [] && Meeting(lower, rel, a, x, b)
    ensures n <= |x| && Atoms(lower, g) == x[..n]
    ensures g != [] && rel(b[0], g) && Meeting(lower, rel, a, x[n..], b[1..])
  {
    assert Stands(x, x);
    g, n := UnfoldOne(lower, a, x, b);
    TailGoesOn(x, Atoms(lower, a), n);
    SigningTail(b);
    MeetOn(lower, rel, a, x[n..], b[1..]);
  }

  lemma TailGoesOn(x: seq<Atom>, all: seq<Atom>, n: nat)
    requires TailOf(x, all) && n <= |x|
    ensures TailOf(x[n..], all)
  {
  }

  lemma UnfoldOne(lower: string -> string, a: seq<Leg>, x: seq<Atom>, b: seq<Leg>) returns (g: seq<Leg>, n: nat)
    requires b != [] && Meet(lower, a, x, b)
    ensures n <= |x| && Atoms(lower, g) == x[..n]
    ensures g != [] && Unfolding(lower)(b[0], g) && Spells(x[n..], LegsText(lower, b[1..]))
  {
    SigningTail(b);
    StrictFrom(lower, a, x);
    LegIsTellable(lower, b[0]);
    SigningIsTellable(lower, b[1..]);
    LegsSpell(lower, b);
    LegsSpell(lower, b[1..]);
    g, n := UnfoldLeg(lower, a, x, b[0], Atoms(lower, b[1..]), LegsText(lower, b), LegsText(lower, b[1..]));
  }

  lemma StrictFrom(lower: string -> string, a: seq<Leg>, x: seq<Atom>)
    requires Folds(lower) && AllPresentable(a) && TailOf(x, Atoms(lower, a))
    ensures AllStrict(x)
  {
    PresentableIsStrict(lower, a);
    StrictRest(Atoms(lower, a), |Atoms(lower, a)| - |x|);
  }

  lemma UnfoldLeg(lower: string -> string, a: seq<Leg>, x: seq<Atom>, leg: Leg, more: seq<Atom>, text: string, rest: string)
    returns (g: seq<Leg>, n: nat)
    requires AllPresentable(a) && TailOf(x, Atoms(lower, a))
    requires AllStrict(x) && AllTellable(LegAtoms(lower, leg)) && AllTellable(more)
    requires Spells(x, text) && Spells(LegAtoms(lower, leg) + more, text) && Spells(more, rest)
    ensures n <= |x| && Atoms(lower, g) == x[..n]
    ensures g != [] && UnfoldsTo(lower, leg, g) && Spells(x[n..], rest)
  {
    if leg.Tx? {
      n := TxBegins(lower, x, leg, more, text, rest);
      g := TxPart(lower, a, x, leg, n);
    } else {
      n := TextBegins(lower, x, leg, more, text, rest);
      g := [leg];
    }
  }

  lemma TextBegins(lower: string -> string, x: seq<Atom>, leg: Leg, more: seq<Atom>, text: string, rest: string) returns (n: nat)
    requires !leg.Tx? && AllStrict(x) && AllTellable(LegAtoms(lower, leg)) && AllTellable(more)
    requires Spells(x, text) && Spells(LegAtoms(lower, leg) + more, text) && Spells(more, rest)
    ensures n <= |x| && Atoms(lower, [leg]) == x[..n] && Spells(x[n..], rest)
  {
    var own := LegAtoms(lower, leg);
    n := |own|;
    SpellsOut(x, text);
    SpellsOut(own + more, text);
    SpellsOut(more, rest);
    LegEnds(lower, leg);
    PeelText(x, own, more);
    AtomsOfOne(lower, leg);
    SpellsOut(x[n..], rest);
  }

  lemma TxBegins(lower: string -> string, x: seq<Atom>, leg: Leg, more: seq<Atom>, text: string, rest: string) returns (n: nat)
    requires leg.Tx? && AllStrict(x) && AllTellable(LegAtoms(lower, leg)) && AllTellable(more)
    requires Spells(x, text) && Spells(LegAtoms(lower, leg) + more, text) && Spells(more, rest)
    ensures 0 < n <= |x| && Ends(x, n) && x[0].TxAtom?
    ensures Spells(x[..n], LegsText(lower, [leg])) && Spells(x[n..], rest)
  {
    var first := TxAtom(leg.chainId, Fields(lower, leg.tx));
    var y := LegAtoms(lower, leg) + more;
    assert y[0] == first && y[1..] == more;
    SpellsOut(x, text);
    SpellsOut(y, text);
    SpellsOut(more, rest);
    SameFirstAtom(x, y);
    var body := TxIsMarked(first.chainId, first.fields, rest);
    n := CutAfterMark(x, body, rest);
    LegsTextOfOne(lower, leg);
    SpellsOut(x[..n], LegsText(lower, [leg]));
    SpellsOut(x[n..], rest);
  }

  lemma TxPart(lower: string -> string, a: seq<Leg>, x: seq<Atom>, leg: Leg, n: nat) returns (g: seq<Leg>)
    requires leg.Tx? && AllPresentable(a) && TailOf(x, Atoms(lower, a))
    requires 0 < n <= |x| && Ends(x, n) && x[0].TxAtom? && Spells(x[..n], LegsText(lower, [leg]))
    ensures g != [] && UnfoldsTo(lower, leg, g) && Atoms(lower, g) == x[..n]
  {
    g := TakeLegs(lower, a, x, n);
    SpelledAlike(lower, g, x[..n], LegsText(lower, [leg]));
  }

  lemma TakeLegs(lower: string -> string, a: seq<Leg>, x: seq<Atom>, n: nat) returns (g: seq<Leg>)
    requires AllPresentable(a) && TailOf(x, Atoms(lower, a))
    requires 0 < n <= |x| && Ends(x, n) && x[0].TxAtom?
    ensures g != [] && AllPresentable(g) && Atoms(lower, g) == x[..n]
    ensures Closing(g[|g| - 1]) && g[0].Tx?
  {
    var all := Atoms(lower, a);
    var p := |all| - |x|;
    assert all[p] == all[p..][0];
    var i := TxBeginsALeg(lower, a, p);
    g := CutPresentable(lower, a, i, n);
  }

  lemma SpelledAlike(lower: string -> string, g: seq<Leg>, own: seq<Atom>, text: string)
    requires Atoms(lower, g) == own && Spells(own, text)
    ensures LegsText(lower, g) == text
  {
    LegsSpell(lower, g);
    SpellsOut(own, LegsText(lower, g));
    SpellsOut(own, text);
  }

  lemma CutPresentable(lower: string -> string, a: seq<Leg>, i: nat, n: nat) returns (g: seq<Leg>)
    requires AllPresentable(a) && i < |a| && a[i].Tx? && 0 < n <= |Atoms(lower, a[i..])| && Ends(Atoms(lower, a[i..]), n)
    ensures g != [] && AllPresentable(g) && Atoms(lower, g) == Atoms(lower, a[i..])[..n]
    ensures Closing(g[|g| - 1]) && g[0].Tx?
  {
    PresentableFrom(a, i);
    g := CutLegs(lower, a[i..], n);
  }

  lemma PresentableFrom(a: seq<Leg>, i: nat)
    requires AllPresentable(a) && i <= |a|
    ensures AllPresentable(a[i..])
  {
    forall k | 0 <= k < |a| - i ensures Presentable(a[i..][k]) {
      assert Presentable(a[i + k]);
    }
  }

  lemma PartedOn(rel: (Leg, seq<Leg>) -> bool, b: seq<Leg>, g: seq<Leg>, tail: seq<Leg>, more: seq<nat>)
    requires b != [] && g != [] && rel(b[0], g) && Parted(rel, b[1..], tail, more)
    ensures Parted(rel, b, g + tail, [0] + Moved(more, |g|))
  {
    var c, cuts := g + tail, [0] + Moved(more, |g|);
    forall k | 0 <= k < |b| ensures Part(rel, b, c, cuts, k) {
      if k == 0 {
        assert c[cuts[0]..cuts[1]] == g;
      } else {
        assert Part(rel, b[1..], tail, more, k - 1);
        assert c[cuts[k]..cuts[k + 1]] == tail[more[k - 1]..more[k]];
      }
    }
  }

  // ---- what a fold asks ----------------------------------------------------------------

  /** The fold of its text changes nothing in it. */
  predicate StillLeg(lower: string -> string, leg: Leg) {
    Still(lower, TextOf(leg))
  }

  ghost predicate AllStill(lower: string -> string, legs: seq<Leg>) {
    forall i {:trigger StillLeg(lower, legs[i])} :: 0 <= i < |legs| ==> StillLeg(lower, legs[i])
  }

  lemma {:induction false} FieldsTextStill(lower: string -> string, fields: seq<string>)
    requires Folds(lower) && forall i :: 0 <= i < |fields| ==> Still(lower, fields[i])
    ensures Still(lower, FieldsText(fields))
  {
    if fields == [] {
      LowerFixesSettled(lower, "");
    } else {
      FieldsTextStill(lower, fields[1..]);
      StillApart(lower, fields[0], UNIT_SEPARATOR, FieldsText(fields[1..]));
    }
  }

  lemma DecIsStill(lower: string -> string, n: nat)
    requires Folds(lower)
    ensures Still(lower, Dec(n))
  {
    DecRoundTrip(n);
    LowerFixesSettled(lower, Dec(n));
  }

  lemma BodyStill(lower: string -> string, leg: Leg)
    requires Folds(lower)
    ensures Still(lower, LegBody(lower, leg)) <==> StillLeg(lower, leg)
  {
    match leg {
      case Tx(chainId, tx) =>
        FieldsSettle(lower, tx);
        FieldsTextStill(lower, Fields(lower, tx));
        DecIsStill(lower, chainId);
        StillApart(lower, Dec(chainId), '\n', FieldsText(Fields(lower, tx)));
        LowerFixesSettled(lower, "");
      case Message(_) =>
      case Digest(digest, purpose) =>
        assert FoldsOnce(lower, TrimStartMatches(Trim(digest), "0x"));
        StillApart(lower, DigestText(lower, digest), UNIT_SEPARATOR, purpose);
    }
  }

  lemma TagStill(lower: string -> string, leg: Leg)
    requires Folds(lower)
    ensures Still(lower, Tag(leg))
  {
    LowerFixesSettled(lower, Tag(leg));
  }

  lemma FirstStill(lower: string -> string, tag: string, body: string, rest: string)
    requires Folds(lower) && Still(lower, tag)
    ensures Still(lower, tag + "\n" + (body + "\n" + rest)) <==> Still(lower, body) && Still(lower, rest)
  {
    StillApart(lower, tag, '\n', body + "\n" + rest);
    StillApart(lower, body, '\n', rest);
  }

  lemma {:induction false} LegsStill(lower: string -> string, legs: seq<Leg>)
    requires Folds(lower)
    ensures Still(lower, LegsText(lower, legs)) <==> AllStill(lower, legs)
  {
    if legs == [] {
      LowerFixesSettled(lower, "");
    } else {
      TagStill(lower, legs[0]);
      BodyStill(lower, legs[0]);
      FirstStill(lower, Tag(legs[0]), LegBody(lower, legs[0]), LegsText(lower, legs[1..]));
      LegsStill(lower, legs[1..]);
      StillTail(lower, legs);
    }
  }

  lemma StillTail(lower: string -> string, legs: seq<Leg>)
    requires legs != []
    ensures AllStill(lower, legs) <==> StillLeg(lower, legs[0]) && AllStill(lower, legs[1..])
  {
    if AllStill(lower, legs) {
      forall i | 0 <= i < |legs| - 1 ensures StillLeg(lower, legs[1..][i]) {
        assert StillLeg(lower, legs[i + 1]);
      }
      assert StillLeg(lower, legs[0]);
    }
    if StillLeg(lower, legs[0]) && AllStill(lower, legs[1..]) {
      forall i | 0 <= i < |legs| ensures StillLeg(lower, legs[i]) {
        assert i > 0 ==> StillLeg(lower, legs[1..][i - 1]);
      }
    }
  }

  /** The legs a transaction unfolds to: every text is its own fold. */
  lemma UnfoldedAreStill(lower: string -> string, leg: Leg, g: seq<Leg>)
    requires Folds(lower) && leg.Tx? && UnfoldsTo(lower, leg, g)
    ensures AllStill(lower, g)
  {
    LowerFixesSettled(lower, "");
    assert StillLeg(lower, leg);
    assert AllStill(lower, [leg]);
    LegsStill(lower, [leg]);
    LegsStill(lower, g);
  }

  // ---- the mode and the last field -----------------------------------------------------

  lemma {:induction false} FieldsTextConcat(f: seq<string>, g: seq<string>)
    ensures FieldsText(f + g) == FieldsText(f) + FieldsText(g)
  {
    if f == [] {
      assert f + g == g && FieldsText(f) + FieldsText(g) == FieldsText(g);
    } else {
      assert (f + g)[1..] == f[1..] + g && (f + g)[0] == f[0];
      FieldsTextConcat(f[1..], g);
      assert f[0] + [UNIT_SEPARATOR] + (FieldsText(f[1..]) + FieldsText(g)) == f[0] + [UNIT_SEPARATOR] + FieldsText(f[1..]) + FieldsText(g);
    }
  }

  /** A transaction's text, as the seven fields that are always read and what is after them. */
  lemma FrontApart(lower: string -> string, leg: Leg, rest: string)
    requires leg.Tx?
    ensures
      var f := Fields(lower, leg.tx);
      Tag(leg) + "\n" + (LegBody(lower, leg) + "\n" + rest) ==
        "tx" + "\n" + (Dec(leg.chainId) + "\n" + (FieldsText(f[..7]) + (FieldsText(f[7..]) + ("\n" + rest))))
  {
    var f := Fields(lower, leg.tx);
    FieldsTextConcat(f[..7], f[7..]);
    assert f[..7] + f[7..] == f;
    var x, y, d := FieldsText(f[..7]), FieldsText(f[7..]), Dec(leg.chainId);
    assert d + "\n" + (x + y) + "\n" + rest == d + "\n" + (x + (y + ("\n" + rest)));
  }

  /** Legs with one text, the first of each a transaction that signs: its front is one. */
  lemma SameFront(lower: string -> string, p: Leg, q: Leg, x: string, y: string)
    requires Lowercases(lower) && p.Tx? && q.Tx? && Signs(p) && Signs(q)
    requires Tag(p) + "\n" + (LegBody(lower, p) + "\n" + x) == Tag(q) + "\n" + (LegBody(lower, q) + "\n" + y)
    ensures p.chainId == q.chainId && Fields(lower, p.tx)[..7] == Fields(lower, q.tx)[..7]
    ensures FieldsText(Fields(lower, p.tx)[7..]) + ("\n" + x) == FieldsText(Fields(lower, q.tx)[7..]) + ("\n" + y)
    ensures IsLegacy(p.tx) == IsLegacy(q.tx)
  {
    FrontApart(lower, p, x);
    FrontApart(lower, q, y);
    var f, g := Fields(lower, p.tx), Fields(lower, q.tx);
    FrontFree(lower, p);
    FrontFree(lower, q);
    var fx, gy := FieldsText(f[7..]) + ("\n" + x), FieldsText(g[7..]) + ("\n" + y);
    SameAfterTag(Dec(p.chainId), Dec(q.chainId), FieldsText(f[..7]) + fx, FieldsText(g[..7]) + gy);
    DecIsPlain(p.chainId);
    DecIsPlain(q.chainId);
    SeparatorCancels(Dec(p.chainId), Dec(q.chainId), FieldsText(f[..7]) + fx, FieldsText(g[..7]) + gy, '\n');
    NumeralInjective(p.chainId, q.chainId, 10);
    FieldsCancel(f[..7], g[..7], fx, gy);
    SameMode(lower, p, q);
  }

  lemma SameAfterTag(c: string, d: string, x: string, y: string)
    requires "tx" + "\n" + (c + "\n" + x) == "tx" + "\n" + (d + "\n" + y)
    ensures c + "\n" + x == d + "\n" + y
  {
    SamePart("tx" + "\n", c + "\n" + x, d + "\n" + y);
  }

  lemma FrontFree(lower: string -> string, leg: Leg)
    requires Lowercases(lower) && leg.Tx? && Signs(leg)
    ensures |Fields(lower, leg.tx)| == 10 && AllFree(Fields(lower, leg.tx)[..7], UNIT_SEPARATOR)
  {
    SigningFields(lower, leg);
    var f := Fields(lower, leg.tx);
    forall i | 0 <= i < 7 ensures Free(f[..7][i], UNIT_SEPARATOR) {
      assert IsRead(leg.tx, i) && f[..7][i] == f[i];
    }
  }

  lemma SigningReads(leg: Leg)
    requires leg.Tx? && Signs(leg)
    ensures Reads(leg.tx)
  {
    TypedExactly(leg.tx, leg.chainId);
  }

  lemma ModeField(lower: string -> string, tx: UnsignedTx)
    ensures |Fields(lower, tx)| == 10 && Fields(lower, tx)[..7][6] == lower(Trim(tx.feeMode))
  {
    FieldsAre(lower, tx, 6);
  }

  lemma SameMode(lower: string -> string, p: Leg, q: Leg)
    requires Lowercases(lower) && p.Tx? && q.Tx? && Signs(p) && Signs(q)
    requires Fields(lower, p.tx)[..7] == Fields(lower, q.tx)[..7]
    ensures IsLegacy(p.tx) == IsLegacy(q.tx)
  {
    ModeField(lower, p.tx);
    ModeField(lower, q.tx);
    SigningReads(p);
    SigningReads(q);
    SameFeeMode(lower, Trim(p.tx.feeMode), Trim(q.tx.feeMode));
  }

  // ---- one leg for one -----------------------------------------------------------------

  lemma {:induction false} UnitsOf(fields: seq<string>)
    ensures |Split(FieldsText(fields), UNIT_SEPARATOR)| > |fields|
    ensures AllFree(fields, UNIT_SEPARATOR) ==> |Split(FieldsText(fields), UNIT_SEPARATOR)| == |fields| + 1
  {
    if fields != [] {
      UnitsOf(fields[1..]);
      SplitConcat(fields[0], FieldsText(fields[1..]), UNIT_SEPARATOR);
      if AllFree(fields, UNIT_SEPARATOR) {
        SplitOfPiece(fields[0], UNIT_SEPARATOR);
      }
    }
  }

  /** As many fields with the text of free ones are those. */
  lemma {:induction false} SameUnits(f: seq<string>, g: seq<string>)
    requires |f| == |g| && AllFree(f, UNIT_SEPARATOR) && FieldsText(f) == FieldsText(g)
    ensures f == g
  {
    if f != [] {
      var x, y := FieldsText(f[1..]), FieldsText(g[1..]);
      assert Free(g[0], UNIT_SEPARATOR) by {
        UnitsOf(f);
        UnitsOf(g[1..]);
        SplitConcat(g[0], y, UNIT_SEPARATOR);
        if !Free(g[0], UNIT_SEPARATOR) {
          var head, tail := FirstApart(g[0], UNIT_SEPARATOR);
          SplitConcat(head, tail, UNIT_SEPARATOR);
        }
      }
      SeparatorCancels(f[0], g[0], x, y, UNIT_SEPARATOR);
      SameUnits(f[1..], g[1..]);
      assert f == [f[0]] + f[1..] && g == [g[0]] + g[1..];
    }
  }

  lemma FieldsApart(f: seq<string>)
    requires |f| == 10
    ensures f == f[..7] + f[7..]
  {
  }

  lemma LegsTextIs(lower: string -> string, legs: seq<Leg>)
    requires legs != []
    ensures LegsText(lower, legs) == Tag(legs[0]) + "\n" + (LegBody(lower, legs[0]) + "\n" + LegsText(lower, legs[1..]))
  {
  }

  lemma PlainFieldsFree(lower: string -> string, leg: Leg)
    requires Lowercases(lower) && Presentable(leg) && leg.Tx?
    ensures |Fields(lower, leg.tx)| == 10 && AllFree(Fields(lower, leg.tx), UNIT_SEPARATOR)
  {
    PresentableIsClean(lower, leg);
  }

  /** A transaction that unfolds to one leg is committed as that one is. */
  lemma SameFields(lower: string -> string, leg: Leg, g: seq<Leg>)
    requires Lowercases(lower) && leg.Tx? && Signs(leg) && UnfoldsTo(lower, leg, g) && |g| == 1
    ensures Alike(lower, leg, g[0]) && Presentable(g[0])
  {
    var plain := g[0];
    assert Presentable(plain);
    LegsTextIs(lower, [leg]);
    LegsTextIs(lower, g);
    assert g[1..] == [] && [leg][1..] == [];
    SameFront(lower, leg, plain, "", "");
    var f, h := Fields(lower, leg.tx), Fields(lower, plain.tx);
    PlainFieldsFree(lower, plain);
    var x, y := FieldsText(f[7..]), FieldsText(h[7..]);
    assert x == (x + ("\n" + ""))[..|x|] && y == (y + ("\n" + ""))[..|y|] && |x| == |y|;
    SameUnits(h[7..], f[7..]);
    FieldsApart(f);
    FieldsApart(h);
  }

  /** And signs what that one signs. */
  lemma OneForOne(lower: string -> string, leg: Leg, g: seq<Leg>)
    requires Lowercases(lower) && leg.Tx? && Signs(leg) && UnfoldsTo(lower, leg, g) && |g| == 1
    ensures PayloadOf(leg) == PayloadOf(g[0])
  {
    SameFields(lower, leg, g);
    AlikeLegsSignAlike(lower, leg, g[0]);
  }

  /** A separator is still there when the case is folded. */
  lemma FreeUnfolded(lower: string -> string, s: string)
    requires Folds(lower) && Free(lower(s), UNIT_SEPARATOR)
    ensures Free(s, UNIT_SEPARATOR)
  {
    if !Free(s, UNIT_SEPARATOR) {
      var head, tail := FirstApart(s, UNIT_SEPARATOR);
      FoldsAt(lower, head, UNIT_SEPARATOR, tail);
      SeparatorShows(lower(head), lower(tail));
    }
  }

  /** And is plain if that one is. */
  lemma OneIsPlain(lower: string -> string, leg: Leg, g: seq<Leg>)
    requires Folds(lower) && leg.Tx? && Signs(leg) && UnfoldsTo(lower, leg, g) && |g| == 1
    ensures Presentable(leg)
  {
    SameFields(lower, leg, g);
    PlainFieldsFree(lower, g[0]);
    forall i: nat | i < 10 ensures Free(Trim(Submitted(leg.tx)[i]), UNIT_SEPARATOR) {
      FieldsAre(lower, leg.tx, i);
      FreeUnfolded(lower, Trim(Submitted(leg.tx)[i]));
    }
    SubmittedFree(leg.tx);
  }

  lemma SubmittedFree(tx: UnsignedTx)
    requires forall i: nat | i < 10 :: Free(Trim(Submitted(tx)[i]), UNIT_SEPARATOR)
    ensures PlainFields(tx)
  {
    var f := Submitted(tx);
    assert Free(Trim(f[0]), UNIT_SEPARATOR) && Free(Trim(f[2]), UNIT_SEPARATOR) && Free(Trim(f[3]), UNIT_SEPARATOR);
    assert Free(Trim(f[4]), UNIT_SEPARATOR) && Free(Trim(f[5]), UNIT_SEPARATOR) && Free(Trim(f[6]), UNIT_SEPARATOR);
    assert Free(Trim(f[7]), UNIT_SEPARATOR) && Free(Trim(f[8]), UNIT_SEPARATOR) && Free(Trim(f[9]), UNIT_SEPARATOR);
  }

  // ---- several legs for one ------------------------------------------------------------

  lemma LastUnit(x: string, s: string, y: string, t: string)
    requires Free(s, UNIT_SEPARATOR) && Free(t, UNIT_SEPARATOR)
    requires x + [UNIT_SEPARATOR] + s == y + [UNIT_SEPARATOR] + t
    ensures s == t && x == y
  {
    var l, r := x + [UNIT_SEPARATOR] + s, y + [UNIT_SEPARATOR] + t;
    assert l[|x|] == UNIT_SEPARATOR && r[|y|] == UNIT_SEPARATOR;
    assert |x| == |y|;
    assert l[..|x|] == x && r[..|y|] == y && l[|x| + 1..] == s && r[|y| + 1..] == t;
  }

  /** How a transaction's body ends: its last field, and in front of it a separator. */
  lemma TxBodyEnds(lower: string -> string, leg: Leg) returns (x: string)
    requires leg.Tx?
    ensures |Fields(lower, leg.tx)| == 10 && LegBody(lower, leg) == x + [UNIT_SEPARATOR] + Fields(lower, leg.tx)[9] + [UNIT_SEPARATOR]
    ensures x == Dec(leg.chainId) + "\n" + (FieldsText(Fields(lower, leg.tx)[..8]) + Fields(lower, leg.tx)[8])
  {
    var f := Fields(lower, leg.tx);
    assert f == f[..9] + [f[9]] && f[..9] == f[..8] + [f[8]];
    FieldsTextSnoc(f[..9], f[9]);
    FieldsTextSnoc(f[..8], f[8]);
    var d, z := Dec(leg.chainId), FieldsText(f[..8]);
    x := d + "\n" + (z + f[8]);
    TwoUnits(d + "\n", z, f[8], f[9]);
  }

  lemma TwoUnits(d: string, z: string, s: string, t: string)
    ensures d + (z + (s + [UNIT_SEPARATOR]) + (t + [UNIT_SEPARATOR])) == d + (z + s) + [UNIT_SEPARATOR] + t + [UNIT_SEPARATOR]
  {
  }

  /** The text of some legs, apart from the body of the last. */
  lemma LastLegApart(lower: string -> string, g: seq<Leg>) returns (x: string)
    requires g != []
    ensures LegsText(lower, g) == x + "\n" + LegBody(lower, g[|g| - 1]) + "\n"
  {
    var init, last := g[..|g| - 1], g[|g| - 1];
    assert g == init + [last];
    LegsTextSnoc(lower, init, last);
    x := LegsText(lower, init) + Tag(last);
    LastParts(LegsText(lower, init), Tag(last), LegBody(lower, last));
  }

  lemma LastParts(l: string, t: string, b: string)
    ensures l + (t + "\n" + (b + "\n")) == l + t + "\n" + b + "\n"
  {
  }

  /** What the folded series ends with. A legacy transaction takes over the gas price of the last one. */
  predicate Closes(lower: string -> string, host: UnsignedTx, last: Leg) {
    && Closing(last)
    && (IsLegacy(host) ==> last.Tx? && ReadNumber(lower(Trim(last.tx.gasPrice)), U128_LIMIT).Ok?)
  }

  /** The legs after `i`, up to `j`, can be folded into the transaction there. */
  ghost predicate FoldsIn(lower: string -> string, legs: seq<Leg>, i: nat, j: nat)
    requires i < j < |legs|
  {
    legs[i].Tx? && StillBetween(lower, legs, i + 1, j + 1) && Closes(lower, legs[i].tx, legs[j])
  }

  ghost predicate StillBetween(lower: string -> string, legs: seq<Leg>, lo: nat, hi: nat)
    requires hi <= |legs|
  {
    forall k {:trigger StillLeg(lower, legs[k])} :: lo <= k < hi ==> StillLeg(lower, legs[k])
  }

  ghost predicate HasFold(lower: string -> string, legs: seq<Leg>) {
    exists i, j :: 0 <= i < j < |legs| && FoldsIn(lower, legs, i, j)
  }

  lemma GasPriceIsLine(lower: string -> string, leg: Leg)
    requires Lowercases(lower) && leg.Tx? && Signs(leg) && IsLegacy(leg.tx)
    ensures
      var s := Fields(lower, leg.tx)[9];
      Free(s, '\n') && Free(s, UNIT_SEPARATOR) && ReadNumber(s, U128_LIMIT).Ok?
  {
    SigningReads(leg);
    var t := Trim(leg.tx.gasPrice);
    NumbersAreOneLine(t, U128_LIMIT);
    NumberIgnoresCase(t, U128_LIMIT);
    LoweredAscii(lower, t, '\n');
    LoweredAscii(lower, t, UNIT_SEPARATOR);
    FieldsAre(lower, leg.tx, 9);
  }

  /** A text does not end both in a last unit that is a line and in a line that is a unit. */
  lemma NotBoth(x: string, s: string, y: string, d: string)
    requires Free(s, '\n') && Free(d, UNIT_SEPARATOR)
    ensures x + [UNIT_SEPARATOR] + s != y + "\n" + d
  {
    var l, r := x + [UNIT_SEPARATOR] + s, y + "\n" + d;
    assert l[|x|] == UNIT_SEPARATOR && r[|y|] == '\n';
  }

  /** How a legacy transaction's text ends. */
  lemma LegacyEnds(lower: string -> string, leg: Leg) returns (x: string)
    requires leg.Tx?
    ensures |Fields(lower, leg.tx)| == 10
    ensures LegsText(lower, [leg]) == x + [UNIT_SEPARATOR] + Fields(lower, leg.tx)[9] + [UNIT_SEPARATOR] + "\n"
  {
    var pre := LastLegApart(lower, [leg]);
    var body := TxBodyEnds(lower, leg);
    x := pre + "\n" + body;
    Enclosed(pre + "\n", body, Fields(lower, leg.tx)[9]);
  }

  lemma Enclosed(pre: string, body: string, s: string)
    ensures pre + (body + [UNIT_SEPARATOR] + s + [UNIT_SEPARATOR]) + "\n" == pre + body + [UNIT_SEPARATOR] + s + [UNIT_SEPARATOR] + "\n"
  {
  }

  lemma SameEnds(x: string, y: string)
    requires x + [UNIT_SEPARATOR] + "\n" == y + [UNIT_SEPARATOR] + "\n"
    ensures x == y
  {
    assert (x + [UNIT_SEPARATOR] + "\n")[..|x|] == x && (y + [UNIT_SEPARATOR] + "\n")[..|y|] == y;
  }

  lemma SeriesEndsInTx(lower: string -> string, g: seq<Leg>) returns (x: string)
    requires g != [] && g[|g| - 1].Tx?
    ensures |Fields(lower, g[|g| - 1].tx)| == 10
    ensures LegsText(lower, g) == x + [UNIT_SEPARATOR] + Fields(lower, g[|g| - 1].tx)[9] + [UNIT_SEPARATOR] + "\n"
  {
    var pre := LastLegApart(lower, g);
    var body := TxBodyEnds(lower, g[|g| - 1]);
    x := pre + "\n" + body;
    Enclosed(pre + "\n", body, Fields(lower, g[|g| - 1].tx)[9]);
  }

  lemma SeriesEndsInDigest(lower: string -> string, g: seq<Leg>) returns (x: string)
    requires g != [] && g[|g| - 1].Digest? && g[|g| - 1].purpose == ""
    ensures LegsText(lower, g) == x + "\n" + DigestText(lower, g[|g| - 1].digest) + [UNIT_SEPARATOR] + "\n"
  {
    x := LastLegApart(lower, g);
    var d := DigestText(lower, g[|g| - 1].digest);
    assert d + [UNIT_SEPARATOR] + "" == d + [UNIT_SEPARATOR];
  }

  /** What a legacy transaction unfolds to ends in a transaction with its gas price. */
  lemma LegacyCloses(lower: string -> string, leg: Leg, g: seq<Leg>)
    requires Lowercases(lower) && leg.Tx? && Signs(leg) && IsLegacy(leg.tx) && UnfoldsTo(lower, leg, g)
    ensures g[|g| - 1].Tx? && ReadNumber(lower(Trim(g[|g| - 1].tx.gasPrice)), U128_LIMIT).Ok?
  {
    var last := g[|g| - 1];
    assert Presentable(last);
    GasPriceIsLine(lower, leg);
    var s := Fields(lower, leg.tx)[9];
    var x := LegacyEnds(lower, leg);
    if last.Digest? {
      var y := SeriesEndsInDigest(lower, g);
      var d := DigestText(lower, last.digest);
      PresentableIsClean(lower, last);
      SameEnds(x + [UNIT_SEPARATOR] + s, y + "\n" + d);
      NotBoth(x, s, y, d);
    } else {
      var y := SeriesEndsInTx(lower, g);
      var t := Fields(lower, last.tx)[9];
      PlainFieldsFree(lower, last);
      SameEnds(x + [UNIT_SEPARATOR] + s, y + [UNIT_SEPARATOR] + t);
      LastUnit(x, s, y, t);
      FieldsAre(lower, last.tx, 9);
    }
  }

  /** Whatever unfolds to several legs shows that they fold. */
  lemma UnfoldedFolds(lower: string -> string, leg: Leg, g: seq<Leg>)
    requires Folds(lower) && leg.Tx? && Signs(leg) && UnfoldsTo(lower, leg, g) && |g| > 1
    ensures FoldsIn(lower, g, 0, |g| - 1)
  {
    UnfoldedAreStill(lower, leg, g);
    UnfoldedMode(lower, leg, g);
    UnfoldedCloses(lower, leg, g);
  }

  lemma UnfoldedCloses(lower: string -> string, leg: Leg, g: seq<Leg>)
    requires Lowercases(lower) && leg.Tx? && Signs(leg) && UnfoldsTo(lower, leg, g)
    ensures Closes(lower, leg.tx, g[|g| - 1])
  {
    if IsLegacy(leg.tx) {
      LegacyCloses(lower, leg, g);
    }
  }

  lemma UnfoldedMode(lower: string -> string, leg: Leg, g: seq<Leg>)
    requires Lowercases(lower) && leg.Tx? && Signs(leg) && UnfoldsTo(lower, leg, g)
    ensures IsLegacy(leg.tx) == IsLegacy(g[0].tx)
  {
    assert Presentable(g[0]);
    LegsTextIs(lower, [leg]);
    LegsTextIs(lower, g);
    assert [leg][1..] == [];
    SameFront(lower, leg, g[0], "", LegsText(lower, g[1..]));
  }

  lemma FoldInside(lower: string -> string, c: seq<Leg>, lo: nat, hi: nat)
    requires lo + 1 < hi <= |c| && FoldsIn(lower, c[lo..hi], 0, hi - lo - 1)
    ensures HasFold(lower, c)
  {
    var g := c[lo..hi];
    forall k | lo < k < hi ensures StillLeg(lower, c[k]) {
      assert StillLeg(lower, g[k - lo]);
    }
    assert g[0] == c[lo] && g[hi - lo - 1] == c[hi - 1];
    assert FoldsIn(lower, c, lo, hi - 1);
  }

  // ---- without a fold ------------------------------------------------------------------

  lemma PartIsPresentable(lower: string -> string, leg: Leg, g: seq<Leg>)
    requires Signs(leg) && UnfoldsTo(lower, leg, g)
    ensures AllPresentable(g)
  {
    if !leg.Tx? {
      assert Presentable(leg);
    }
  }

  lemma PartsArePresentable(lower: string -> string, b: seq<Leg>, c: seq<Leg>, cuts: seq<nat>, k: nat)
    requires AllSign(b) && Parted(Unfolding(lower), b, c, cuts) && k <= |b|
    ensures cuts[k] <= |c| && AllPresentable(c[..cuts[k]])
  {
    if k > 0 {
      PartsArePresentable(lower, b, c, cuts, k - 1);
      assert Part(Unfolding(lower), b, c, cuts, k - 1);
      assert Signs(b[k - 1]);
      var g := c[cuts[k - 1]..cuts[k]];
      PartIsPresentable(lower, b[k - 1], g);
      PresentableInside(c[..cuts[k - 1]], g, []);
      OnePartMore(c, cuts[k - 1], cuts[k]);
    }
  }

  lemma OnePartMore(c: seq<Leg>, p: nat, q: nat)
    requires p <= q <= |c|
    ensures c[..p] + c[p..q] + [] == c[..q]
  {
  }

  /** These do not all fold into the first of them. */
  ghost predicate NotOneFold(lower: string -> string, g: seq<Leg>) {
    |g| > 1 ==> !FoldsIn(lower, g, 0, |g| - 1)
  }

  lemma OnePart(lower: string -> string, leg: Leg, g: seq<Leg>)
    requires Folds(lower) && Signs(leg) && UnfoldsTo(lower, leg, g) && g != [] && NotOneFold(lower, g)
    ensures |g| == 1 && PayloadOf(g[0]) == PayloadOf(leg)
  {
    if leg.Tx? {
      if |g| > 1 {
        UnfoldedFolds(lower, leg, g);
      }
      OneForOne(lower, leg, g);
    }
  }

  /** Without a fold each leg unfolds to one, in its place, and that one signs the same. */
  lemma {:induction false} OneEach(lower: string -> string, b: seq<Leg>, c: seq<Leg>, cuts: seq<nat>, k: nat)
    requires Folds(lower) && AllSign(b) && Parted(Unfolding(lower), b, c, cuts) && !HasFold(lower, c) && k <= |b|
    ensures cuts[k] == k <= |c|
    ensures k > 0 ==> PayloadOf(c[k - 1]) == PayloadOf(b[k - 1])
  {
    if k > 0 {
      OneEach(lower, b, c, cuts, k - 1);
      OneMoreEach(lower, b, c, cuts, k - 1);
    }
  }

  lemma OneMoreEach(lower: string -> string, b: seq<Leg>, c: seq<Leg>, cuts: seq<nat>, k: nat)
    requires Folds(lower) && AllSign(b) && Parted(Unfolding(lower), b, c, cuts) && !HasFold(lower, c) && k < |b| && cuts[k] == k
    ensures cuts[k + 1] == k + 1 <= |c| && PayloadOf(c[k]) == PayloadOf(b[k])
  {
    assert Part(Unfolding(lower), b, c, cuts, k);
    assert Signs(b[k]);
    FirstOfSlice(c, k, cuts[k + 1]);
    OneAlone(lower, b[k], c, k, cuts[k + 1], c[k..cuts[k + 1]]);
  }

  lemma OneAlone(lower: string -> string, leg: Leg, c: seq<Leg>, lo: nat, hi: nat, g: seq<Leg>)
    requires Folds(lower) && Signs(leg) && lo < hi <= |c| && !HasFold(lower, c) && g == c[lo..hi] && UnfoldsTo(lower, leg, g)
    ensures |g| == 1 && PayloadOf(g[0]) == PayloadOf(leg)
  {
    NoFoldInside(lower, c, lo, hi);
    OnePart(lower, leg, g);
  }

  lemma FirstOfSlice(c: seq<Leg>, lo: nat, hi: nat)
    requires lo < hi <= |c|
    ensures |c[lo..hi]| == hi - lo && c[lo..hi][0] == c[lo]
  {
  }

  /** There are at least as many unfolded. */
  lemma {:induction false} MoreUnfolded(rel: (Leg, seq<Leg>) -> bool, b: seq<Leg>, c: seq<Leg>, cuts: seq<nat>, k: nat)
    requires Parted(rel, b, c, cuts) && k <= |b|
    ensures k <= cuts[k] <= |c| && (k > 0 && cuts[k] == k ==> cuts[k - 1] == k - 1 && rel(b[k - 1], c[k - 1..k]))
  {
    if k > 0 {
      MoreUnfolded(rel, b, c, cuts, k - 1);
      assert Part(rel, b, c, cuts, k - 1);
    }
  }

  /** And as many only where each leg unfolds to one, and is plain. */
  lemma {:induction false} SinglesArePlain(lower: string -> string, b: seq<Leg>, c: seq<Leg>, cuts: seq<nat>, k: nat)
    requires Folds(lower) && AllSign(b) && Parted(Unfolding(lower), b, c, cuts) && k <= |b| && cuts[k] == k
    ensures AllPresentable(b[..k])
  {
    if k > 0 {
      MoreUnfolded(Unfolding(lower), b, c, cuts, k);
      SinglesArePlain(lower, b, c, cuts, k - 1);
      assert Signs(b[k - 1]);
      OneIsPresentable(lower, b[k - 1], c[k - 1..k]);
      PresentableSnoc(b, k);
    }
  }

  lemma PresentableSnoc(b: seq<Leg>, k: nat)
    requires 0 < k <= |b| && AllPresentable(b[..k - 1]) && Presentable(b[k - 1])
    ensures AllPresentable(b[..k])
  {
    forall i | 0 <= i < k ensures Presentable(b[..k][i]) {
      assert i < k - 1 ==> Presentable(b[..k - 1][i]);
    }
  }

  lemma OneIsPresentable(lower: string -> string, leg: Leg, g: seq<Leg>)
    requires Folds(lower) && Signs(leg) && UnfoldsTo(lower, leg, g) && |g| == 1
    ensures Presentable(leg)
  {
    if leg.Tx? {
      OneIsPlain(lower, leg, g);
    }
  }

  lemma NoFoldInside(lower: string -> string, c: seq<Leg>, lo: nat, hi: nat)
    requires lo < hi <= |c| && !HasFold(lower, c)
    ensures NotOneFold(lower, c[lo..hi])
  {
    if hi > lo + 1 && FoldsIn(lower, c[lo..hi], 0, hi - lo - 1) {
      FoldInside(lower, c, lo, hi);
    }
  }

  lemma AlikeFold(lower: string -> string, a: seq<Leg>, c: seq<Leg>, i: nat, j: nat)
    requires Lowercases(lower) && AllPresentable(a) && AllPresentable(c) && AllAlike(lower, a, c) && i < j < |c| && FoldsIn(lower, c, i, j)
    ensures FoldsIn(lower, a, i, j)
  {
    assert Alike(lower, a[i], c[i]) && Presentable(a[i]) && Presentable(c[i]);
    SameMode(lower, a[i], c[i]);
    forall k | i < k <= j ensures StillLeg(lower, a[k]) {
      assert Alike(lower, a[k], c[k]) && StillLeg(lower, c[k]);
      assert TextOf(a[k]) == TextOf(c[k]);
    }
    assert Alike(lower, a[j], c[j]);
    if a[j].Tx? {
      FieldsAre(lower, a[j].tx, 9);
      FieldsAre(lower, c[j].tx, 9);
    }
  }

  lemma AlikeSign(lower: string -> string, a: seq<Leg>, c: seq<Leg>)
    requires Lowercases(lower) && AllSign(a) && AllSign(c) && AllAlike(lower, a, c)
    ensures SignAlike(a, c)
  {
    forall i | 0 <= i < |a| ensures PayloadOf(a[i]) == PayloadOf(c[i]) {
      assert Signs(a[i]) && Signs(c[i]) && Alike(lower, a[i], c[i]);
      AlikeLegsSignAlike(lower, a[i], c[i]);
    }
  }

  /** Where there is neither a change nor a fold, whatever signs with the text signs alike. */
  lemma NoFoldNoReading(lower: string -> string, a: seq<Leg>, b: seq<Leg>)
    requires Folds(lower) && AllPresentable(a) && AllSign(b) && LegsText(lower, a) == LegsText(lower, b)
    requires !HasTurn(a) && !HasFold(lower, a)
    ensures SignAlike(a, b)
  {
    var c, cuts := Unfolds(lower, a, b);
    NoTurnNoReading(lower, a, c);
    if HasFold(lower, c) {
      var i, j :| 0 <= i < j < |c| && FoldsIn(lower, c, i, j);
      AlikeFold(lower, a, c, i, j);
    }
    PresentableSigns(a);
    PresentableSigns(c);
    AlikeSign(lower, a, c);
    OneEach(lower, b, c, cuts, |b|);
    forall k | 0 <= k < |b| ensures PayloadOf(c[k]) == PayloadOf(b[k]) {
      OneEach(lower, b, c, cuts, k + 1);
    }
  }

  /** A bundle that signs with the text of a plain one, unfolded. */
  lemma Unfolds(lower: string -> string, a: seq<Leg>, b: seq<Leg>) returns (c: seq<Leg>, cuts: seq<nat>)
    requires Folds(lower) && AllPresentable(a) && AllSign(b) && LegsText(lower, a) == LegsText(lower, b)
    ensures AllPresentable(c) && Atoms(lower, c) == Atoms(lower, a) && Parted(Unfolding(lower), b, c, cuts)
  {
    var all := Atoms(lower, a);
    assert all[0..] == all;
    LegsSpell(lower, a);
    MeetOn(lower, Unfolding(lower), a, all, b);
    c, cuts := Unfold(lower, Unfolding(lower), a, all, b);
    PartsArePresentable(lower, b, c, cuts, |b|);
    assert c[..|c|] == c;
  }
}
