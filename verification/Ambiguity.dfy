/**
 Which bundles without unit separators the commitment tells apart from every other such one, and
 what it fixes in all of them.
 */
module Ambiguity {
  import opened Base
  import opened Text
  import opened TxForm
  import opened Commitment
  import opened Grouping

  // ---- what is fixed in every case -----------------------------------------------------

  /** The legs that are not free text, in order. */
  function Weighty(legs: seq<Leg>): seq<Leg> {
    if legs == [] then []
    else if legs[0].Message? then Weighty(legs[1..])
    else [legs[0]] + Weighty(legs[1..])
  }

  function HeadAtom(lower: string -> string, leg: Leg): Atom
    requires !leg.Message?
  {
    if leg.Tx? then TxAtom(leg.chainId, Fields(lower, leg.tx)) else DigestAtom(DigestText(lower, leg.digest))
  }

  function Heavies(atoms: seq<Atom>): seq<Atom> {
    if atoms == [] then []
    else if atoms[0].Line? then Heavies(atoms[1..])
    else [atoms[0]] + Heavies(atoms[1..])
  }

  lemma {:induction false} HeaviesConcat(a: seq<Atom>, b: seq<Atom>)
    ensures Heavies(a + b) == Heavies(a) + Heavies(b)
  {
    if a == [] {
      assert a + b == b;
    } else {
      HeaviesConcat(a[1..], b);
      assert (a + b)[1..] == a[1..] + b && (a + b)[0] == a[0];
    }
  }

  lemma {:induction false} LinesAreLight(lines: seq<string>)
    ensures Heavies(LinesOf(lines)) == []
  {
    if lines != [] {
      LinesAreLight(lines[1..]);
      assert LinesOf(lines)[1..] == LinesOf(lines[1..]);
    }
  }

  lemma LegHeavies(lower: string -> string, leg: Leg)
    ensures Heavies(LegAtoms(lower, leg)) == if leg.Message? then [] else [HeadAtom(lower, leg)]
  {
    match leg {
      case Tx(_, _) => assert LegAtoms(lower, leg)[1..] == [];
      case Message(text) =>
        LinesAreLight(Lines(text));
        assert LegAtoms(lower, leg)[1..] == LinesOf(Lines(text));
      case Digest(_, purpose) =>
        LinesAreLight(Lines(purpose));
        assert LegAtoms(lower, leg)[1..] == LinesOf(Lines(purpose));
    }
  }

  lemma {:induction false} HeaviesAreWeighty(lower: string -> string, legs: seq<Leg>)
    ensures |Heavies(Atoms(lower, legs))| == |Weighty(legs)|
    ensures forall i :: 0 <= i < |Weighty(legs)| ==>
      !Weighty(legs)[i].Message? && Heavies(Atoms(lower, legs))[i] == HeadAtom(lower, Weighty(legs)[i])
  {
    if legs != [] {
      HeaviesAreWeighty(lower, legs[1..]);
      LegHeavies(lower, legs[0]);
      HeaviesConcat(LegAtoms(lower, legs[0]), Atoms(lower, legs[1..]));
    }
  }

  /**
   Whatever the texts are, clean bundles with one encoding have the same transactions and the
   same digests, in the same order: where both sign, they sign alike.
   */
  lemma TransactionsAndDigestsAreFixed(lower: string -> string, a: Intent, b: Intent)
    requires Lowercases(lower) && AllClean(lower, a.legs) && AllClean(lower, b.legs)
    requires Free(lower(Trim(a.address)), '\n') && Free(lower(Trim(b.address)), '\n')
    requires Encode(lower, a) == Encode(lower, b)
    ensures |Weighty(a.legs)| == |Weighty(b.legs)|
    ensures forall i :: 0 <= i < |Weighty(a.legs)| && PayloadOf(Weighty(a.legs)[i]).Ok? && PayloadOf(Weighty(b.legs)[i]).Ok? ==>
      PayloadOf(Weighty(a.legs)[i]) == PayloadOf(Weighty(b.legs)[i])
  {
    EncodingsMeetExactly(lower, a, b);
    HeaviesAreWeighty(lower, a.legs);
    HeaviesAreWeighty(lower, b.legs);
    var wa, wb := Weighty(a.legs), Weighty(b.legs);
    forall i | 0 <= i < |wa| && PayloadOf(wa[i]).Ok? && PayloadOf(wb[i]).Ok?
      ensures PayloadOf(wa[i]) == PayloadOf(wb[i])
    {
      HeadsSignAlike(lower, wa[i], wb[i]);
    }
  }

  lemma HeadsSignAlike(lower: string -> string, a: Leg, b: Leg)
    requires Lowercases(lower) && !a.Message? && !b.Message? && HeadAtom(lower, a) == HeadAtom(lower, b)
    requires PayloadOf(a).Ok? && PayloadOf(b).Ok?
    ensures PayloadOf(a) == PayloadOf(b)
  {
    if a.Tx? {
      AlikeLegsSignAlike(lower, a, b);
    } else {
      AlikeLegsSignAlike(lower, Digest(a.digest, ""), Digest(b.digest, ""));
    }
  }

  // ---- bundles without stray tags ------------------------------------------------------

  function TextOf(leg: Leg): string {
    match leg
    case Tx(_, _) => ""
    case Message(text) => text
    case Digest(_, purpose) => purpose
  }

  /** No text has a line `message` after its first. */
  predicate Plain(leg: Leg) {
    forall i :: 0 < i < |Lines(TextOf(leg))| ==> Lines(TextOf(leg))[i] != "message"
  }

  /** A text has a line `message` that is neither its first nor its last. */
  predicate Divisible(leg: Leg) {
    exists i :: 0 < i < |Lines(TextOf(leg))| - 1 && Lines(TextOf(leg))[i] == "message"
  }

  /** The atoms of a leg and what follows: one that is not a line, or `message`, then the text. */
  lemma LegAtomsShape(lower: string -> string, leg: Leg)
    ensures
      var atoms := LegAtoms(lower, leg);
      && |atoms| > 0
      && atoms[0] == (if leg.Message? then Line("message") else HeadAtom(lower, leg))
      && atoms[1..] == (if leg.Tx? then [] else LinesOf(Lines(TextOf(leg))))
  {
  }

  lemma AtomsShape(lower: string -> string, legs: seq<Leg>)
    requires legs != []
    ensures
      var atoms := Atoms(lower, legs);
      && |atoms| > 0
      && atoms[0] == (if legs[0].Message? then Line("message") else HeadAtom(lower, legs[0]))
      && atoms[1..] == (if legs[0].Tx? then [] else LinesOf(Lines(TextOf(legs[0])))) + Atoms(lower, legs[1..])
  {
    LegAtomsShape(lower, legs[0]);
    HeadAndTail(LegAtoms(lower, legs[0]), Atoms(lower, legs[1..]));
  }

  lemma HeadAndTail(x: seq<Atom>, y: seq<Atom>)
    requires x != []
    ensures (x + y)[0] == x[0] && (x + y)[1..] == x[1..] + y
  {
  }

  lemma LinesApart(s: seq<string>, t: seq<string>, ra: seq<Atom>, rb: seq<Atom>)
    requires |s| == |t| && LinesOf(s) + ra == LinesOf(t) + rb
    ensures s == t && ra == rb
  {
    var all := LinesOf(s) + ra;
    assert all[..|s|] == LinesOf(s) && all[..|s|] == LinesOf(t);
    forall i | 0 <= i < |s| ensures s[i] == t[i] {
      assert LinesOf(s)[i] == Line(s[i]) && LinesOf(t)[i] == Line(t[i]);
    }
    assert all[|s|..] == ra && all[|s|..] == rb;
  }

  lemma LineAt(t: seq<string>, rb: seq<Atom>, k: nat)
    requires k < |t| + |rb|
    ensures k < |t| ==> (LinesOf(t) + rb)[k] == Line(t[k])
  {
  }

  /** Where the first text goes on longer, what opens the next leg is one of its later lines. */
  lemma LongerHoldsATag(lower: string -> string, s: seq<string>, t: seq<string>, a: seq<Leg>, b: seq<Leg>)
    requires s != [] && t != [] && LinesOf(s) + Atoms(lower, a) == LinesOf(t) + Atoms(lower, b)
    ensures |s| < |t| ==> a != [] && a[0].Message? && t[|s|] == "message"
    ensures |s| < |t| ==> |s| + 1 < |t| + |Atoms(lower, b)|
  {
    var ra, rb := Atoms(lower, a), Atoms(lower, b);
    assert |s| + |ra| == |t| + |rb|;
    if a != [] {
      AtomsShape(lower, a);
      assert (LinesOf(s) + ra)[|s|] == ra[0];
      LineAt(t, rb, |s|);
    }
  }

  lemma SameHeadAtoms(lower: string -> string, a: Leg, b: Leg)
    requires (if a.Message? then Line("message") else HeadAtom(lower, a)) == (if b.Message? then Line("message") else HeadAtom(lower, b))
    requires TextOf(a) == TextOf(b) || a.Tx?
    ensures Alike(lower, a, b)
  {
  }

  lemma FirstAtomTellsKind(lower: string -> string, a: Leg, b: Leg)
    requires (if a.Message? then Line("message") else HeadAtom(lower, a)) == (if b.Message? then Line("message") else HeadAtom(lower, b))
    ensures a.Tx? == b.Tx? && a.Message? == b.Message?
  {
  }

  predicate AllPlain(legs: seq<Leg>) {
    forall i :: 0 <= i < |legs| ==> Plain(legs[i])
  }

  lemma SameLines(s: string, t: string)
    requires Lines(s) == Lines(t)
    ensures s == t
  {
    JoinSplit(s, '\n');
    JoinSplit(t, '\n');
  }

  /** Where no later line of any text is `message`, the atoms tell the legs. */
  lemma {:induction false} PlainLegsAreTold(lower: string -> string, a: seq<Leg>, b: seq<Leg>)
    requires AllPlain(a) && AllPlain(b) && Atoms(lower, a) == Atoms(lower, b)
    ensures |a| == |b| && forall i :: 0 <= i < |a| ==> Alike(lower, a[i], b[i])
  {
    if a != [] {
      AtomsShape(lower, a);
    }
    if b != [] {
      AtomsShape(lower, b);
    }
    if a != [] && b != [] {
      FirstAtomTellsKind(lower, a[0], b[0]);
      assert Plain(a[0]) && Plain(b[0]);
      if !a[0].Tx? {
        var s, t := Lines(TextOf(a[0])), Lines(TextOf(b[0]));
        LongerHoldsATag(lower, s, t, a[1..], b[1..]);
        LongerHoldsATag(lower, t, s, b[1..], a[1..]);
        LinesApart(s, t, Atoms(lower, a[1..]), Atoms(lower, b[1..]));
        SameLines(TextOf(a[0]), TextOf(b[0]));
      } else {
        assert [] + Atoms(lower, a[1..]) == Atoms(lower, a[1..]) && [] + Atoms(lower, b[1..]) == Atoms(lower, b[1..]);
      }
      SameHeadAtoms(lower, a[0], b[0]);
      PlainLegsAreTold(lower, a[1..], b[1..]);
      Shifted(lower, a, b);
    }
  }

  lemma Shifted(lower: string -> string, a: seq<Leg>, b: seq<Leg>)
    requires a != [] && |a| == |b| && Alike(lower, a[0], b[0])
    requires forall i :: 0 <= i < |a[1..]| ==> Alike(lower, a[1..][i], b[1..][i])
    ensures forall i :: 0 <= i < |a| ==> Alike(lower, a[i], b[i])
  {
    forall i | 0 <= i < |a| ensures Alike(lower, a[i], b[i]) {
      if i > 0 {
        assert a[i] == a[1..][i - 1] && b[i] == b[1..][i - 1];
      }
    }
  }

  // ---- bundles told apart from every other ---------------------------------------------

  /** No free text directly after free text, and no text that could be divided. */
  predicate Fixed(legs: seq<Leg>) {
    && (forall i :: 0 <= i < |legs| - 1 ==> !(legs[i + 1].Message? && !legs[i].Tx?))
    && (forall i :: 0 <= i < |legs| ==> !Divisible(legs[i]))
  }

  lemma FixedTail(legs: seq<Leg>)
    requires Fixed(legs) && legs != []
    ensures Fixed(legs[1..])
    ensures !legs[0].Tx? && |legs| > 1 ==> !legs[1].Message?
    ensures !Divisible(legs[0])
  {
    var tail := legs[1..];
    forall i | 0 <= i < |tail| - 1 ensures !(tail[i + 1].Message? && !tail[i].Tx?) {
      assert tail[i] == legs[i + 1] && tail[i + 1] == legs[i + 1 + 1];
    }
    if |legs| > 1 {
      assert legs[0 + 1] == legs[1];
    }
  }

  /** A fixed text cannot be part of a longer one, nor be made of shorter ones. */
  lemma FixedTextIsAlone(lower: string -> string, a: seq<Leg>, b: seq<Leg>)
    requires a != [] && b != [] && Fixed(a) && !a[0].Tx? && !b[0].Tx?
    requires LinesOf(Lines(TextOf(a[0]))) + Atoms(lower, a[1..]) == LinesOf(Lines(TextOf(b[0]))) + Atoms(lower, b[1..])
    ensures TextOf(a[0]) == TextOf(b[0]) && Atoms(lower, a[1..]) == Atoms(lower, b[1..])
  {
    var s, t := Lines(TextOf(a[0])), Lines(TextOf(b[0]));
    FixedTail(a);
    assert forall k :: 0 < k < |s| - 1 ==> s[k] != "message";
    LongerHoldsATag(lower, s, t, a[1..], b[1..]);
    LongerHoldsATag(lower, t, s, b[1..], a[1..]);
    if |t| < |s| {
      TagIsInside(lower, s, t, a[1..], b[1..]);
    }
    LinesApart(s, t, Atoms(lower, a[1..]), Atoms(lower, b[1..]));
    SameLines(TextOf(a[0]), TextOf(b[0]));
  }

  /** A leg opened inside a text has a line of its own before that text ends, where no more lines follow. */
  lemma TagIsInside(lower: string -> string, s: seq<string>, t: seq<string>, a: seq<Leg>, b: seq<Leg>)
    requires t != [] && |t| < |s| && LinesOf(s) + Atoms(lower, a) == LinesOf(t) + Atoms(lower, b)
    requires a != [] ==> !a[0].Message?
    requires b != [] && b[0].Message?
    ensures |t| < |s| - 1
  {
    var ra, rb := Atoms(lower, a), Atoms(lower, b);
    AtomsShape(lower, b);
    if a != [] {
      AtomsShape(lower, a);
    }
    assert |s| + |ra| == |t| + |rb|;
    assert rb[1..][0] == LinesOf(Lines(TextOf(b[0])))[0];
    assert (LinesOf(t) + rb)[|t| + 1] == rb[1];
    RightPart(s, ra, |t| + 1);
  }

  lemma RightPart(s: seq<string>, ra: seq<Atom>, k: nat)
    requires k < |s| + |ra|
    ensures k == |s| ==> (LinesOf(s) + ra)[k] == ra[0]
  {
  }

  /** A fixed bundle has its encoding to itself: any clean bundle that shares it is alike, leg by leg. */
  lemma {:induction false} FixedIsAlone(lower: string -> string, a: seq<Leg>, b: seq<Leg>)
    requires Fixed(a) && Atoms(lower, a) == Atoms(lower, b)
    ensures |a| == |b| && forall i :: 0 <= i < |a| ==> Alike(lower, a[i], b[i])
  {
    if a != [] {
      AtomsShape(lower, a);
    }
    if b != [] {
      AtomsShape(lower, b);
    }
    if a != [] && b != [] {
      FirstAtomTellsKind(lower, a[0], b[0]);
      if a[0].Tx? {
        assert [] + Atoms(lower, a[1..]) == Atoms(lower, a[1..]) && [] + Atoms(lower, b[1..]) == Atoms(lower, b[1..]);
      } else {
        FixedTextIsAlone(lower, a, b);
      }
      SameHeadAtoms(lower, a[0], b[0]);
      FixedTail(a);
      FixedIsAlone(lower, a[1..], b[1..]);
      Shifted(lower, a, b);
    }
  }

  // ---- and the others ------------------------------------------------------------------

  function WithText(leg: Leg, text: string): Leg
    requires !leg.Tx?
  {
    if leg.Message? then Message(text) else Digest(leg.digest, text)
  }

  /** A leg divided at a `message` line, or two legs put together, with the same atoms. */
  lemma DividedLeg(lower: string -> string, leg: Leg, t: string, u: string)
    requires !leg.Tx? && TextOf(leg) == t + "\nmessage\n" + u
    ensures LegAtoms(lower, leg) == LegAtoms(lower, WithText(leg, t)) + LegAtoms(lower, Message(u))
  {
    DividedLines(t, u);
    LinesOfThree(Lines(t), "message", Lines(u));
    LegAtomsShape(lower, leg);
    LegAtomsShape(lower, WithText(leg, t));
    LegAtomsShape(lower, Message(u));
    PutTogether(LegAtoms(lower, leg), LegAtoms(lower, WithText(leg, t)), LegAtoms(lower, Message(u)));
  }

  lemma PutTogether(x: seq<Atom>, y: seq<Atom>, z: seq<Atom>)
    requires x != [] && y != [] && z != []
    requires x[0] == y[0] && x[1..] == y[1..] + ([z[0]] + z[1..])
    ensures x == y + z
  {
    assert x == [x[0]] + x[1..] && y == [y[0]] + y[1..] && z == [z[0]] + z[1..];
  }

  lemma DividedLines(t: string, u: string)
    ensures Lines(t + "\nmessage\n" + u) == Lines(t) + (["message"] + Lines(u))
  {
    var rest := "message" + "\n" + u;
    assert t + "\nmessage\n" + u == t + "\n" + rest;
    SplitConcat(t, rest, '\n');
    SplitAtFirst("message", u, '\n');
  }

  lemma LinesOfThree(s: seq<string>, m: string, t: seq<string>)
    ensures LinesOf(s + ([m] + t)) == LinesOf(s) + ([Line(m)] + LinesOf(t))
  {
  }

  lemma Assoc(x: seq<Atom>, y: seq<Atom>, z: seq<Atom>)
    ensures x + (y + z) == (x + y) + z
  {
  }

  lemma {:induction false} AtomsConcat(lower: string -> string, a: seq<Leg>, b: seq<Leg>)
    ensures Atoms(lower, a + b) == Atoms(lower, a) + Atoms(lower, b)
  {
    if a == [] {
      assert a + b == b;
    } else {
      var all := a + b;
      assert all[1..] == a[1..] + b && all[0] == a[0];
      AtomsConcat(lower, a[1..], b);
      Assoc(LegAtoms(lower, a[0]), Atoms(lower, a[1..]), Atoms(lower, b));
    }
  }

  lemma AtomsOfOne(lower: string -> string, leg: Leg)
    ensures Atoms(lower, [leg]) == LegAtoms(lower, leg)
  {
    var one := [leg];
    assert one[1..] == [] && one[0] == leg;
    assert LegAtoms(lower, leg) + [] == LegAtoms(lower, leg);
  }

  lemma AtomsOfTwo(lower: string -> string, p: Leg, q: Leg)
    ensures Atoms(lower, [p, q]) == LegAtoms(lower, p) + LegAtoms(lower, q)
  {
    assert [p, q] == [p] + [q];
    AtomsConcat(lower, [p], [q]);
    AtomsOfOne(lower, p);
    AtomsOfOne(lower, q);
  }

  /** Legs with the same atoms stand in for each other anywhere. */
  lemma AtomsInside(lower: string -> string, pre: seq<Leg>, x: seq<Leg>, y: seq<Leg>, post: seq<Leg>)
    requires Atoms(lower, x) == Atoms(lower, y)
    ensures Atoms(lower, pre + x + post) == Atoms(lower, pre + y + post)
  {
    AtomsConcat(lower, pre + x, post);
    AtomsConcat(lower, pre, x);
    AtomsConcat(lower, pre + y, post);
    AtomsConcat(lower, pre, y);
  }

  lemma {:induction false} JoinParts(s: seq<string>, t: seq<string>, sep: char)
    requires s != [] && t != []
    ensures Join(s + t, sep) == Join(s, sep) + [sep] + Join(t, sep)
  {
    if |s| == 1 {
      assert (s + t)[1..] == t && (s + t)[0] == s[0];
    } else {
      JoinParts(s[1..], t, sep);
      assert (s + t)[1..] == s[1..] + t && (s + t)[0] == s[0];
      assert s[0] + [sep] + (Join(s[1..], sep) + [sep] + Join(t, sep)) == s[0] + [sep] + Join(s[1..], sep) + [sep] + Join(t, sep);
    }
  }

  lemma MessageBetween(t: string, u: string)
    ensures t + "\n" + ("message" + "\n" + u) == t + "\nmessage\n" + u
  {
  }

  lemma Divides(text: string, k: nat) returns (t: string, u: string)
    requires 0 < k < |Lines(text)| - 1 && Lines(text)[k] == "message"
    ensures text == t + "\nmessage\n" + u
  {
    var lines := Lines(text);
    JoinSplit(text, '\n');
    var pre, post := lines[..k], lines[k + 1..];
    t, u := Join(pre, '\n'), Join(post, '\n');
    assert lines == pre + (["message"] + post);
    JoinParts(pre, ["message"] + post, '\n');
    JoinParts(["message"], post, '\n');
    MessageBetween(t, u);
  }

  lemma FreeParts(t: string, u: string)
    ensures Free(t + "\nmessage\n" + u, UNIT_SEPARATOR) <==> Free(t, UNIT_SEPARATOR) && Free(u, UNIT_SEPARATOR)
  {
    var all := t + "\nmessage\n" + u;
    if Free(all, UNIT_SEPARATOR) {
      forall i | 0 <= i < |t| ensures t[i] != UNIT_SEPARATOR {
        assert all[i] == t[i];
      }
      forall i | 0 <= i < |u| ensures u[i] != UNIT_SEPARATOR {
        assert all[|t| + 9 + i] == u[i];
      }
    }
  }

  lemma AroundTwo(a: seq<Leg>, i: nat)
    requires i + 1 < |a|
    ensures a == a[..i] + [a[i], a[i + 1]] + a[i + 2..]
  {
  }

  lemma AroundOne(a: seq<Leg>, i: nat)
    requires i < |a|
    ensures a == a[..i] + [a[i]] + a[i + 1..]
  {
  }

  /** Free text directly after free text, put together. */
  lemma Merges(lower: string -> string, pre: seq<Leg>, p: Leg, q: Leg, post: seq<Leg>)
    requires Clean(lower, p) && Clean(lower, q) && !p.Tx? && q.Message?
    requires AllClean(lower, pre) && AllClean(lower, post)
    ensures
      var merged := WithText(p, TextOf(p) + "\nmessage\n" + q.text);
      && Atoms(lower, pre + [merged] + post) == Atoms(lower, pre + [p, q] + post)
      && AllClean(lower, pre + [merged] + post)
  {
    var merged := WithText(p, TextOf(p) + "\nmessage\n" + q.text);
    DividedLeg(lower, merged, TextOf(p), q.text);
    AtomsOfOne(lower, merged);
    AtomsOfTwo(lower, p, q);
    AtomsInside(lower, pre, [merged], [p, q], post);
    MergedIsClean(lower, p, q);
    CleanInside(lower, pre, [merged], post);
  }

  /** A text with a `message` line inside, divided there. */
  lemma DividesInto(lower: string -> string, pre: seq<Leg>, p: Leg, t: string, u: string, post: seq<Leg>)
    requires Clean(lower, p) && !p.Tx? && TextOf(p) == t + "\nmessage\n" + u
    requires AllClean(lower, pre) && AllClean(lower, post)
    ensures
      var two := [WithText(p, t), Message(u)];
      && Atoms(lower, pre + two + post) == Atoms(lower, pre + [p] + post)
      && AllClean(lower, pre + two + post)
  {
    var two := [WithText(p, t), Message(u)];
    DividedLeg(lower, p, t, u);
    AtomsOfOne(lower, p);
    AtomsOfTwo(lower, WithText(p, t), Message(u));
    AtomsInside(lower, pre, two, [p], post);
    DividedIsClean(lower, p, t, u);
    CleanInside(lower, pre, two, post);
  }

  lemma MergedIsClean(lower: string -> string, p: Leg, q: Leg)
    requires Clean(lower, p) && Clean(lower, q) && !p.Tx? && q.Message?
    ensures Clean(lower, WithText(p, TextOf(p) + "\nmessage\n" + q.text))
  {
    FreeParts(TextOf(p), q.text);
  }

  lemma DividedIsClean(lower: string -> string, p: Leg, t: string, u: string)
    requires Clean(lower, p) && !p.Tx? && TextOf(p) == t + "\nmessage\n" + u
    ensures Clean(lower, WithText(p, t)) && Clean(lower, Message(u))
  {
    FreeParts(t, u);
  }

  lemma CleanInside(lower: string -> string, pre: seq<Leg>, mid: seq<Leg>, post: seq<Leg>)
    requires AllClean(lower, pre) && AllClean(lower, mid) && AllClean(lower, post)
    ensures AllClean(lower, pre + mid + post)
  {
  }

  lemma DivisibleIsText(leg: Leg)
    requires Divisible(leg)
    ensures !leg.Tx?
  {
    assert Lines("") == [""];
  }

  /** A bundle that is not fixed shares its encoding with one of another length. */
  lemma UnfixedHasADouble(lower: string -> string, a: seq<Leg>) returns (b: seq<Leg>)
    requires AllClean(lower, a) && !Fixed(a)
    ensures AllClean(lower, b) && Atoms(lower, b) == Atoms(lower, a) && |b| != |a|
  {
    if i :| 0 <= i < |a| && Divisible(a[i]) {
      var k :| 0 < k < |Lines(TextOf(a[i]))| - 1 && Lines(TextOf(a[i]))[k] == "message";
      var t, u := Divides(TextOf(a[i]), k);
      DivisibleIsText(a[i]);
      AroundOne(a, i);
      DividesInto(lower, a[..i], a[i], t, u, a[i + 1..]);
      b := a[..i] + [WithText(a[i], t), Message(u)] + a[i + 1..];
    } else {
      var i :| 0 <= i < |a| - 1 && a[i + 1].Message? && !a[i].Tx?;
      AroundTwo(a, i);
      Merges(lower, a[..i], a[i], a[i + 1], a[i + 2..]);
      b := a[..i] + [WithText(a[i], TextOf(a[i]) + "\nmessage\n" + a[i + 1].text)] + a[i + 2..];
    }
  }

  ghost predicate AllAlike(lower: string -> string, a: seq<Leg>, b: seq<Leg>) {
    |a| == |b| && forall i :: 0 <= i < |a| ==> Alike(lower, a[i], b[i])
  }

  /**
   Exactly the fixed bundles have their encoding to themselves: every clean bundle with that
   text is alike, leg by leg, iff no free text directly follows free text and no text has a
   `message` line between its first and its last.
   */
  lemma AloneExactly(lower: string -> string, a: seq<Leg>)
    requires AllClean(lower, a)
    ensures Fixed(a) <==> forall b :: AllClean(lower, b) && LegsText(lower, b) == LegsText(lower, a) ==> AllAlike(lower, a, b)
  {
    if Fixed(a) {
      forall b | AllClean(lower, b) && LegsText(lower, b) == LegsText(lower, a) ensures AllAlike(lower, a, b) {
        TextsMeetExactly(lower, a, b);
        FixedIsAlone(lower, a, b);
      }
    } else {
      var b := UnfixedHasADouble(lower, a);
      TextsMeetExactly(lower, a, b);
      assert !AllAlike(lower, a, b);
    }
  }

  /** Two clean bundles of which no text has a later line `message` are told apart whole. */
  lemma PlainBundlesAreDetermined(lower: string -> string, a: Intent, b: Intent)
    requires AllClean(lower, a.legs) && AllClean(lower, b.legs) && AllPlain(a.legs) && AllPlain(b.legs)
    requires Free(lower(Trim(a.address)), '\n') && Free(lower(Trim(b.address)), '\n')
    requires Encode(lower, a) == Encode(lower, b)
    ensures AllAlike(lower, a.legs, b.legs)
  {
    EncodingsMeetExactly(lower, a, b);
    PlainLegsAreTold(lower, a.legs, b.legs);
  }
}
