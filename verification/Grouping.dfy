/**
 Exactly what the canonical encoding leaves open.

 The encoding under the commitment (`commitment` of rust-lib/src/approval.rs) is asked here of
 bundles whose committed fields and texts hold no unit separator. Of those it fixes every
 transaction, every digest and every line of text, whatever the texts are. What it leaves
 open is which `message` lines open a leg and which are text: two of them share an encoding
 exactly when they have the same atoms. `Folding` has what else can sign with their text.
 */
module Grouping {
  import opened Base
  import opened Text
  import opened TxForm
  import opened Commitment

  /** What is left of a bundle once its texts are no longer told apart by leg. */
  datatype Atom =
    | Line(text: string)
    | TxAtom(chainId: nat, fields: seq<string>)
    | DigestAtom(digest: string)

  function LinesOf(lines: seq<string>): seq<Atom> {
    seq(|lines|, i requires 0 <= i < |lines| => Line(lines[i]))
  }

  function LegAtoms(lower: string -> string, leg: Leg): seq<Atom> {
    match leg
    case Tx(chainId, tx) => [TxAtom(chainId, Fields(lower, tx))]
    case Message(text) => [Line("message")] + LinesOf(Lines(text))
    case Digest(digest, purpose) => [DigestAtom(DigestText(lower, digest))] + LinesOf(Lines(purpose))
  }

  function Atoms(lower: string -> string, legs: seq<Leg>): seq<Atom> {
    if legs == [] then [] else LegAtoms(lower, legs[0]) + Atoms(lower, legs[1..])
  }

  // ---- atoms as text -------------------------------------------------------------------

  function AtomText(atom: Atom): string {
    match atom
    case Line(text) => text + "\n"
    case TxAtom(chainId, fields) => "tx" + "\n" + (Dec(chainId) + "\n" + (FieldsText(fields) + "\n"))
    case DigestAtom(digest) => "digest" + "\n" + (digest + [UNIT_SEPARATOR])
  }

  function AtomsText(atoms: seq<Atom>): string {
    if atoms == [] then "" else AtomText(atoms[0]) + AtomsText(atoms[1..])
  }

  lemma Regrouped(a: string, b: string, c: string)
    ensures a + (b + c) == (a + b) + c
  {
  }

  lemma NothingBefore(t: string)
    ensures "" + t == t
  {
  }

  lemma {:induction false} AtomsTextConcat(a: seq<Atom>, b: seq<Atom>)
    ensures AtomsText(a + b) == AtomsText(a) + AtomsText(b)
  {
    if a == [] {
      assert a + b == b;
      NothingBefore(AtomsText(b));
    } else {
      var all := a + b;
      assert all[1..] == a[1..] + b && all[0] == a[0];
      AtomsTextConcat(a[1..], b);
      Regrouped(AtomText(a[0]), AtomsText(a[1..]), AtomsText(b));
    }
  }

  lemma {:induction false} LinesText(lines: seq<string>)
    requires lines != []
    ensures AtomsText(LinesOf(lines)) == Join(lines, '\n') + "\n"
  {
    var atoms := LinesOf(lines);
    assert atoms[0] == Line(lines[0]) && atoms[1..] == LinesOf(lines[1..]);
    if |lines| == 1 {
      assert atoms[1..] == [];
      assert lines[0] + "\n" + "" == lines[0] + "\n";
    } else {
      LinesText(lines[1..]);
      assert lines[0] + "\n" + (Join(lines[1..], '\n') + "\n") == lines[0] + ['\n'] + Join(lines[1..], '\n') + "\n";
    }
  }

  lemma TextAtoms(text: string)
    ensures AtomsText(LinesOf(Lines(text))) == text + "\n"
  {
    JoinSplit(text, '\n');
    LinesText(Lines(text));
  }

  lemma TxIsAtoms(lower: string -> string, leg: Leg)
    requires leg.Tx?
    ensures AtomsText(LegAtoms(lower, leg)) == Tag(leg) + "\n" + (LegBody(lower, leg) + "\n")
  {
    var f := FieldsText(Fields(lower, leg.tx));
    var atoms := LegAtoms(lower, leg);
    assert atoms[1..] == [];
    assert Dec(leg.chainId) + "\n" + (f + "\n") == Dec(leg.chainId) + "\n" + f + "\n";
    assert AtomText(atoms[0]) + "" == AtomText(atoms[0]);
  }

  lemma DigestIsAtoms(lower: string -> string, leg: Leg)
    requires leg.Digest?
    ensures AtomsText(LegAtoms(lower, leg)) == Tag(leg) + "\n" + (LegBody(lower, leg) + "\n")
  {
    TextAtoms(leg.purpose);
    assert LegAtoms(lower, leg)[1..] == LinesOf(Lines(leg.purpose));
    var d := DigestText(lower, leg.digest) + [UNIT_SEPARATOR];
    assert "digest" + "\n" + d + (leg.purpose + "\n") == "digest" + "\n" + (d + leg.purpose + "\n");
  }

  lemma LegIsAtoms(lower: string -> string, leg: Leg)
    ensures AtomsText(LegAtoms(lower, leg)) == Tag(leg) + "\n" + (LegBody(lower, leg) + "\n")
  {
    match leg {
      case Tx(_, _) => TxIsAtoms(lower, leg);
      case Message(text) =>
        TextAtoms(text);
        assert LegAtoms(lower, leg)[1..] == LinesOf(Lines(text));
      case Digest(_, _) => DigestIsAtoms(lower, leg);
    }
  }

  /** The legs' part of the encoding is the atoms' text. */
  lemma {:induction false} LegsAreAtoms(lower: string -> string, legs: seq<Leg>)
    ensures LegsText(lower, legs) == AtomsText(Atoms(lower, legs))
  {
    if legs != [] {
      LegsAreAtoms(lower, legs[1..]);
      LegIsAtoms(lower, legs[0]);
      AtomsTextConcat(LegAtoms(lower, legs[0]), Atoms(lower, legs[1..]));
      Regrouped(Tag(legs[0]) + "\n", LegBody(lower, legs[0]) + "\n", LegsText(lower, legs[1..]));
    }
  }

  // ---- the text fixes the atoms --------------------------------------------------------

  predicate ValidAtom(atom: Atom) {
    match atom
    case Line(text) => Free(text, '\n') && Free(text, UNIT_SEPARATOR)
    case TxAtom(_, fields) => |fields| == 10 && AllFree(fields, UNIT_SEPARATOR) && Free(fields[0], '\n')
    case DigestAtom(digest) => Free(digest, '\n') && Free(digest, UNIT_SEPARATOR)
  }

  ghost predicate ValidAtoms(atoms: seq<Atom>) {
    forall i :: 0 <= i < |atoms| ==> ValidAtom(atoms[i])
  }

  /** The lines before its first separator tell what kind of atom it is. */
  predicate Tellable(atom: Atom) {
    match atom
    case Line(text) => Free(text, '\n') && Free(text, UNIT_SEPARATOR)
    case TxAtom(_, fields) => |fields| == 10 && Free(fields[0], '\n') && Free(fields[0], UNIT_SEPARATOR)
    case DigestAtom(digest) => Free(digest, '\n') && Free(digest, UNIT_SEPARATOR)
  }

  ghost predicate AllTellable(atoms: seq<Atom>) {
    forall i {:trigger Tellable(atoms[i])} :: 0 <= i < |atoms| ==> Tellable(atoms[i])
  }

  lemma ValidAreTellable(atoms: seq<Atom>)
    requires ValidAtoms(atoms)
    ensures AllTellable(atoms)
  {
    forall i | 0 <= i < |atoms| ensures Tellable(atoms[i]) {
      assert ValidAtom(atoms[i]);
    }
  }

  predicate Heavy(atoms: seq<Atom>) {
    atoms != [] && (!atoms[0].Line? || Heavy(atoms[1..]))
  }

  /** The lines in front of the first unit separator, the last of them unfinished. */
  ghost function Opening(atoms: seq<Atom>): (lines: seq<string>)
    requires AllTellable(atoms)
    ensures lines != [] && AllFree(lines, '\n') && AllFree(lines, UNIT_SEPARATOR)
  {
    if atoms == [] then [""]
    else
      assert Tellable(atoms[0]);
      match atoms[0]
      case Line(text) => [text] + Opening(atoms[1..])
      case TxAtom(chainId, fields) =>
        DecIsPlain(chainId);
        ["tx", Dec(chainId), fields[0]]
      case DigestAtom(digest) => ["digest", digest]
  }

  lemma DecIsPlain(n: nat)
    ensures Free(Dec(n), '\n') && Free(Dec(n), UNIT_SEPARATOR) && Dec(n) != "digest"
  {
    DecRoundTrip(n);
    assert "digest"[0] == 'd';
  }

  /** What is behind it. */
  ghost function Behind(atoms: seq<Atom>): string
    requires AllTellable(atoms) && Heavy(atoms)
  {
    assert Tellable(atoms[0]);
    match atoms[0]
    case Line(_) => Behind(atoms[1..])
    case TxAtom(_, fields) => FieldsText(fields[1..]) + "\n" + AtomsText(atoms[1..])
    case DigestAtom(_) => AtomsText(atoms[1..])
  }

  lemma {:induction false} OpensAndGoesOn(atoms: seq<Atom>)
    requires AllTellable(atoms)
    ensures AtomsText(atoms) == if Heavy(atoms) then Join(Opening(atoms), '\n') + [UNIT_SEPARATOR] + Behind(atoms) else Join(Opening(atoms), '\n')
  {
    if atoms != [] {
      assert Tellable(atoms[0]);
      match atoms[0] {
        case Line(text) => LineOpens(atoms);
        case TxAtom(chainId, fields) => TxOpens(chainId, fields, AtomsText(atoms[1..]));
        case DigestAtom(digest) => DigestOpens(digest, AtomsText(atoms[1..]));
      }
    }
  }

  lemma {:induction false} LineOpens(atoms: seq<Atom>)
    requires AllTellable(atoms) && atoms != [] && atoms[0].Line?
    ensures AtomsText(atoms) == if Heavy(atoms) then Join(Opening(atoms), '\n') + [UNIT_SEPARATOR] + Behind(atoms) else Join(Opening(atoms), '\n')
    decreases atoms, 0
  {
    var text, rest := atoms[0].text, Opening(atoms[1..]);
    OpensAndGoesOn(atoms[1..]);
    assert Opening(atoms) == [text] + rest && ([text] + rest)[1..] == rest;
    assert Join([text] + rest, '\n') == text + "\n" + Join(rest, '\n');
    if Heavy(atoms) {
      Regrouped(text + "\n", Join(rest, '\n') + [UNIT_SEPARATOR], Behind(atoms));
      Regrouped(text + "\n", Join(rest, '\n'), [UNIT_SEPARATOR]);
    }
  }

  lemma JoinThree(a: string, b: string, c: string)
    ensures Join([a, b, c], '\n') == a + "\n" + (b + "\n" + c)
  {
    var all, tail := [a, b, c], [b, c];
    assert all[1..] == tail && tail[1..] == [c];
    assert Join(tail, '\n') == b + "\n" + c;
  }

  lemma TxOpens(chainId: nat, fields: seq<string>, rest: string)
    requires |fields| == 10
    ensures AtomText(TxAtom(chainId, fields)) + rest ==
      Join(["tx", Dec(chainId), fields[0]], '\n') + [UNIT_SEPARATOR] + (FieldsText(fields[1..]) + "\n" + rest)
  {
    var c, f, g := Dec(chainId), fields[0], FieldsText(fields[1..]);
    JoinThree("tx", c, f);
    assert FieldsText(fields) == f + [UNIT_SEPARATOR] + g;
    assert "tx" + "\n" + (c + "\n" + (f + [UNIT_SEPARATOR] + g + "\n")) + rest
        == "tx" + "\n" + (c + "\n" + f) + [UNIT_SEPARATOR] + (g + "\n" + rest);
  }

  lemma DigestOpens(digest: string, rest: string)
    ensures AtomText(DigestAtom(digest)) + rest == Join(["digest", digest], '\n') + [UNIT_SEPARATOR] + rest
  {
    assert ["digest", digest][1..] == [digest];
    assert "digest" + "\n" + (digest + [UNIT_SEPARATOR]) + rest == "digest" + "\n" + digest + [UNIT_SEPARATOR] + rest;
  }

  lemma {:induction false} JoinIsPlain(lines: seq<string>)
    requires lines != [] && AllFree(lines, UNIT_SEPARATOR)
    ensures Free(Join(lines, '\n'), UNIT_SEPARATOR)
  {
    if |lines| > 1 {
      JoinIsPlain(lines[1..]);
    }
  }

  lemma SeparatorShows(s: string, t: string)
    ensures !Free(s + [UNIT_SEPARATOR] + t, UNIT_SEPARATOR)
  {
    assert (s + [UNIT_SEPARATOR] + t)[|s|] == UNIT_SEPARATOR;
  }

  /** Texts that are one have one opening, and the same behind it. */
  lemma SameOpenings(a: seq<Atom>, b: seq<Atom>)
    requires AllTellable(a) && AllTellable(b) && AtomsText(a) == AtomsText(b)
    ensures Heavy(a) == Heavy(b) && Opening(a) == Opening(b) && (Heavy(a) ==> Behind(a) == Behind(b))
  {
    var p, q := Opening(a), Opening(b);
    OpensAndGoesOn(a);
    OpensAndGoesOn(b);
    JoinIsPlain(p);
    JoinIsPlain(q);
    if Heavy(a) {
      SeparatorShows(Join(p, '\n'), Behind(a));
    }
    if Heavy(b) {
      SeparatorShows(Join(q, '\n'), Behind(b));
    }
    if Heavy(a) && Heavy(b) {
      SeparatorCancels(Join(p, '\n'), Join(q, '\n'), Behind(a), Behind(b), UNIT_SEPARATOR);
    }
    SplitJoin(p, '\n');
    SplitJoin(q, '\n');
  }

  /** Valid atoms can be read off their text. */
  lemma {:induction false} AtomsDetermined(a: seq<Atom>, b: seq<Atom>)
    requires ValidAtoms(a) && ValidAtoms(b) && AtomsText(a) == AtomsText(b)
    ensures a == b
    decreases |a|, 1
  {
    ValidAreTellable(a);
    ValidAreTellable(b);
    SameOpenings(a, b);
    OpeningsTell(a, b);
  }

  /** The shortest openings: nothing left, a digest, a transaction. */
  lemma OpeningLength(atoms: seq<Atom>)
    requires AllTellable(atoms)
    ensures Heavy(atoms) ==> |Opening(atoms)| >= 2
    ensures Heavy(atoms) && |Opening(atoms)| == 2 ==> atoms[0].DigestAtom?
    ensures !Heavy(atoms) && |Opening(atoms)| == 1 ==> atoms == []
  {
    if atoms != [] && atoms[0].Line? {
      OpeningLength(atoms[1..]);
    }
  }

  lemma {:induction false} OpeningsTell(a: seq<Atom>, b: seq<Atom>)
    requires ValidAtoms(a) && ValidAtoms(b) && AllTellable(a) && AllTellable(b)
    requires Heavy(a) == Heavy(b) && Opening(a) == Opening(b)
    requires Heavy(a) ==> Behind(a) == Behind(b)
    ensures a == b
    decreases |a|, 0
  {
    SameHeads(a, b);
    if a != [] {
      assert a == [a[0]] + a[1..] && b == [b[0]] + b[1..];
      assert ValidAtom(a[0]) && ValidAtom(b[0]);
      match a[0] {
        case Line(_) =>
          assert Opening(a)[1..] == Opening(a[1..]) && Opening(b)[1..] == Opening(b[1..]);
          OpeningsTell(a[1..], b[1..]);
        case TxAtom(_, f) =>
          FieldsBehind(f, b[0].fields, AtomsText(a[1..]), AtomsText(b[1..]));
          AtomsDetermined(a[1..], b[1..]);
        case DigestAtom(_) =>
          AtomsDetermined(a[1..], b[1..]);
      }
    }
  }

  lemma FieldsBehind(f: seq<string>, g: seq<string>, rf: string, rg: string)
    requires |f| == |g| == 10 && AllFree(f, UNIT_SEPARATOR) && AllFree(g, UNIT_SEPARATOR) && f[0] == g[0]
    requires FieldsText(f[1..]) + "\n" + rf == FieldsText(g[1..]) + "\n" + rg
    ensures f == g && rf == rg
  {
    assert FieldsText(f[1..]) + "\n" + rf == FieldsText(f[1..]) + ("\n" + rf);
    assert FieldsText(g[1..]) + "\n" + rg == FieldsText(g[1..]) + ("\n" + rg);
    FieldsCancel(f[1..], g[1..], "\n" + rf, "\n" + rg);
    assert ("\n" + rf)[1..] == rf && ("\n" + rg)[1..] == rg;
    assert f == [f[0]] + f[1..] && g == [g[0]] + g[1..];
  }

  /** The openings tell which atom comes first. */
  lemma SameHeads(a: seq<Atom>, b: seq<Atom>)
    requires AllTellable(a) && AllTellable(b) && Heavy(a) == Heavy(b) && Opening(a) == Opening(b)
    ensures a == [] <==> b == []
    ensures a != [] ==>
      match a[0]
      case Line(t) => b[0] == Line(t)
      case TxAtom(c, f) => b[0].TxAtom? && c == b[0].chainId && f != [] && b[0].fields != [] && f[0] == b[0].fields[0]
      case DigestAtom(d) => b[0] == DigestAtom(d)
  {
    OneHead(a, b);
    OneHead(b, a);
    if a != [] && a[0].TxAtom? {
      assert Tellable(a[0]) && Tellable(b[0]);
      assert Opening(a)[1] == Dec(a[0].chainId) && Opening(b)[1] == Dec(b[0].chainId);
      NumeralInjective(a[0].chainId, b[0].chainId, 10);
      assert Opening(a)[2] == a[0].fields[0] && Opening(b)[2] == b[0].fields[0];
    } else if a != [] && a[0].DigestAtom? {
      assert Opening(a)[1] == a[0].digest && Opening(b)[1] == b[0].digest;
    } else if a != [] {
      assert Opening(a)[0] == a[0].text && Opening(b)[0] == b[0].text;
    }
  }

  lemma OneHead(a: seq<Atom>, b: seq<Atom>)
    requires AllTellable(a) && AllTellable(b) && Heavy(a) == Heavy(b) && Opening(a) == Opening(b)
    ensures a != [] ==> b != [] && (a[0].Line? ==> b[0].Line?) && (a[0].TxAtom? ==> b[0].TxAtom?) && (a[0].DigestAtom? ==> b[0].DigestAtom?)
  {
    OpeningLength(a);
    OpeningLength(b);
    if a != [] && a[0].Line? {
      OpeningLength(a[1..]);
      assert Opening(a) == [a[0].text] + Opening(a[1..]);
    }
    if b != [] && b[0].Line? {
      OpeningLength(b[1..]);
      assert Opening(b) == [b[0].text] + Opening(b[1..]);
    }
    TxIsNoDigestLine(a, b);
    TxIsNoDigestLine(b, a);
  }

  /** A line and a digest are not mistaken for a transaction: no chain id reads `digest`. */
  lemma TxIsNoDigestLine(a: seq<Atom>, b: seq<Atom>)
    requires AllTellable(a) && AllTellable(b) && Opening(a) == Opening(b)
    ensures !(a != [] && a[0].TxAtom? && |b| > 1 && b[0].Line? && b[1].DigestAtom?)
  {
    if a != [] && a[0].TxAtom? && |b| > 1 && b[0].Line? && b[1].DigestAtom? {
      DecIsPlain(a[0].chainId);
      TxSecondLine(a);
      DigestSecondLine(b);
    }
  }

  lemma TxSecondLine(a: seq<Atom>)
    requires AllTellable(a) && a != [] && a[0].TxAtom?
    ensures |Opening(a)| == 3 && Opening(a)[1] == Dec(a[0].chainId)
  {
  }

  lemma DigestSecondLine(b: seq<Atom>)
    requires AllTellable(b) && |b| > 1 && b[0].Line? && b[1].DigestAtom?
    ensures |Opening(b)| == 3 && Opening(b)[1] == "digest"
  {
    assert Opening(b) == [b[0].text] + Opening(b[1..]);
    assert b[1..][0] == b[1];
  }

  // ---- bundles -------------------------------------------------------------------------

  /** Free text is free of unit separators, and so are the fields; readable ones are one line. */
  ghost predicate Clean(lower: string -> string, leg: Leg) {
    match leg
    case Tx(_, tx) => AllFree(Fields(lower, tx), UNIT_SEPARATOR) && Free(lower(ToText(tx)), '\n')
    case Message(text) => Free(text, UNIT_SEPARATOR)
    case Digest(digest, purpose) =>
      && Free(DigestText(lower, digest), '\n') && Free(DigestText(lower, digest), UNIT_SEPARATOR)
      && Free(purpose, UNIT_SEPARATOR)
  }

  ghost predicate AllClean(lower: string -> string, legs: seq<Leg>) {
    forall i :: 0 <= i < |legs| ==> Clean(lower, legs[i])
  }

  lemma {:induction false} SplitKeepsFree(s: string, sep: char, c: char)
    requires Free(s, c)
    ensures AllFree(Split(s, sep), c)
  {
    if s != "" {
      SplitKeepsFree(s[1..], sep, c);
    }
  }

  lemma LegAtomsValid(lower: string -> string, leg: Leg)
    requires Clean(lower, leg)
    ensures ValidAtoms(LegAtoms(lower, leg))
  {
    match leg {
      case Tx(_, _) =>
      case Message(text) =>
        SplitKeepsFree(text, '\n', UNIT_SEPARATOR);
        JoinSplit(text, '\n');
      case Digest(_, purpose) =>
        SplitKeepsFree(purpose, '\n', UNIT_SEPARATOR);
        JoinSplit(purpose, '\n');
    }
  }

  lemma {:induction false} CleanIsValid(lower: string -> string, legs: seq<Leg>)
    requires AllClean(lower, legs)
    ensures ValidAtoms(Atoms(lower, legs))
  {
    if legs != [] {
      assert Clean(lower, legs[0]);
      LegAtomsValid(lower, legs[0]);
      CleanIsValid(lower, legs[1..]);
    }
  }

  /** Clean bundles share their legs' text exactly when they have the same atoms. */
  lemma TextsMeetExactly(lower: string -> string, a: seq<Leg>, b: seq<Leg>)
    requires AllClean(lower, a) && AllClean(lower, b)
    ensures LegsText(lower, a) == LegsText(lower, b) <==> Atoms(lower, a) == Atoms(lower, b)
  {
    LegsAreAtoms(lower, a);
    LegsAreAtoms(lower, b);
    CleanIsValid(lower, a);
    CleanIsValid(lower, b);
    if LegsText(lower, a) == LegsText(lower, b) {
      AtomsDetermined(Atoms(lower, a), Atoms(lower, b));
    }
  }

  /** The exact condition: one account, and the same atoms in the same order. */
  lemma EncodingsMeetExactly(lower: string -> string, a: Intent, b: Intent)
    requires Free(lower(Trim(a.address)), '\n') && Free(lower(Trim(b.address)), '\n')
    requires AllClean(lower, a.legs) && AllClean(lower, b.legs)
    ensures Encode(lower, a) == Encode(lower, b) <==>
      lower(Trim(a.address)) == lower(Trim(b.address)) && Atoms(lower, a.legs) == Atoms(lower, b.legs)
  {
    TextsMeetExactly(lower, a.legs, b.legs);
    if Encode(lower, a) == Encode(lower, b) {
      var ra := lower(Trim(a.address)) + "\n" + LegsText(lower, a.legs);
      var rb := lower(Trim(b.address)) + "\n" + LegsText(lower, b.legs);
      assert Encode(lower, a)[|HEADER|..] == ra && Encode(lower, b)[|HEADER|..] == rb;
      SeparatorCancels(lower(Trim(a.address)), lower(Trim(b.address)), LegsText(lower, a.legs), LegsText(lower, b.legs), '\n');
    }
  }

  /** A leg that signs, whose purpose was shown, and whose fields hold no unit separator. */
  predicate Presentable(leg: Leg) {
    && PayloadOf(leg).Ok?
    && (leg.Digest? ==> Displayable(leg.purpose))
    && (leg.Tx? ==> PlainFields(leg.tx))
  }

  lemma HexHasNoBreaks(s: string)
    requires HexDecode(s).Some?
    ensures Free(s, '\n') && Free(s, UNIT_SEPARATOR) && AllAscii(s)
  {
    HexDecodeLength(s);
  }

  lemma LoweredAscii(lower: string -> string, s: string, c: char)
    requires Lowercases(lower) && AllAscii(s) && Free(s, c) && c < 'A'
    ensures Free(lower(s), c)
  {
    assert lower(s) == AsciiLower(s);
    forall i | 0 <= i < |s| ensures AsciiLower(s)[i] != c {
      assert AsciiLower(s)[i] == LowerChar(s[i]);
    }
  }

  lemma MarkedHexHasNoBreaks(t: string)
    requires HexDecode(Unmarked(t)).Some?
    ensures Free(t, '\n') && Free(t, UNIT_SEPARATOR) && AllAscii(t)
  {
    HexHasNoBreaks(Unmarked(t));
    if StripHexMark(t).Some? {
      assert t[..2] == "0x" || t[..2] == "0X";
      assert t == t[..2] + Unmarked(t);
    }
  }

  lemma {:induction false} TailIsPlain(t: string, c: char)
    requires Free(t, c) && AllAscii(t)
    ensures Free(TrimStartMatches(t, "0x"), c) && AllAscii(TrimStartMatches(t, "0x"))
  {
    if StartsWith(t, "0x") {
      TailIsPlain(t[2..], c);
    }
  }

  /** What an approver is shown and a signer signs is clean. */
  lemma PresentableIsClean(lower: string -> string, leg: Leg)
    requires Lowercases(lower) && Presentable(leg)
    ensures Clean(lower, leg)
  {
    match leg {
      case Tx(chainId, tx) =>
        PlainFieldsAreDelimited(lower, chainId, tx);
        if ToText(tx) != "" {
          MarkedHexHasNoBreaks(ToText(tx));
        }
        LoweredAscii(lower, ToText(tx), '\n');
      case Message(text) => DisplayableIsDelimited(text);
      case Digest(digest, purpose) =>
        DisplayableIsDelimited(purpose);
        MarkedHexHasNoBreaks(Trim(digest));
        TailIsPlain(Trim(digest), '\n');
        TailIsPlain(Trim(digest), UNIT_SEPARATOR);
        LoweredAscii(lower, TrimStartMatches(Trim(digest), "0x"), '\n');
        LoweredAscii(lower, TrimStartMatches(Trim(digest), "0x"), UNIT_SEPARATOR);
    }
  }

  predicate AllPresentable(legs: seq<Leg>) {
    forall i {:trigger Presentable(legs[i])} :: 0 <= i < |legs| ==> Presentable(legs[i])
  }

  /**
   Asked of plain bundles that sign, no field with a unit separator: two encodings are one exactly
   when the accounts are one and the bundles differ, if at all, in which `message` lines open a leg.
   */
  lemma SigningBundlesMeetExactly(lower: string -> string, a: Intent, b: Intent)
    requires Lowercases(lower) && AllPresentable(a.legs) && AllPresentable(b.legs)
    requires Free(lower(Trim(a.address)), '\n') && Free(lower(Trim(b.address)), '\n')
    ensures Encode(lower, a) == Encode(lower, b) <==>
      lower(Trim(a.address)) == lower(Trim(b.address)) && Atoms(lower, a.legs) == Atoms(lower, b.legs)
  {
    forall i | 0 <= i < |a.legs| ensures Clean(lower, a.legs[i]) {
      PresentableIsClean(lower, a.legs[i]);
    }
    forall i | 0 <= i < |b.legs| ensures Clean(lower, b.legs[i]) {
      PresentableIsClean(lower, b.legs[i]);
    }
    EncodingsMeetExactly(lower, a, b);
  }
}
