/**
 Which plain bundles that sign the commitment tells apart from every other plain one that signs.

 A `message` line of a run of free text may open a leg or be one of its lines. Another choice
 signs too as long as every text keeps within the limit on what is shown, and it comes down to
 one of a few changes of two or three legs.
 */
module Rereading {
  import opened Base
  import opened Text
  import opened TxForm
  import opened Commitment
  import opened Grouping
  import opened Ambiguity

  // ---- lengths -------------------------------------------------------------------------

  lemma {:induction false} Utf8LengthConcat(s: string, t: string)
    ensures Utf8Length(s + t) == Utf8Length(s) + Utf8Length(t)
  {
    if s == "" {
      assert s + t == t;
    } else {
      Utf8LengthConcat(s[1..], t);
      assert (s + t)[1..] == s[1..] + t && (s + t)[0] == s[0];
    }
  }

  lemma BetweenIsNine()
    ensures Utf8Length("\nmessage\n") == 9
  {
    Utf8LengthConcat("\nmess", "age\n");
    assert "\nmessage\n" == "\nmess" + "age\n";
  }

  predicate NoneIs(bad: char -> bool, s: string) {
    forall i :: 0 <= i < |s| ==> !bad(s[i])
  }

  lemma NoneInBoth(bad: char -> bool, s: string, t: string)
    ensures NoneIs(bad, s + t) <==> NoneIs(bad, s) && NoneIs(bad, t)
  {
    if NoneIs(bad, s + t) {
      forall i | 0 <= i < |s| ensures !bad(s[i]) {
        assert (s + t)[i] == s[i];
      }
      forall i | 0 <= i < |t| ensures !bad(t[i]) {
        assert (s + t)[|s| + i] == t[i];
      }
    }
  }

  lemma BetweenIsShown()
    ensures NoneIs(Misleads, "\nmessage\n")
  {
  }

  lemma DisplayableMeans(t: string)
    ensures Displayable(t) <==> Utf8Length(t) <= MAX_MESSAGE_BYTES && NoneIs(Misleads, t)
  {
  }

  /** Two texts put together can be shown exactly when both can and the length limit is kept. */
  lemma DisplayableTogether(t: string, u: string)
    ensures Displayable(t + "\nmessage\n" + u) <==>
      Displayable(t) && Displayable(u) && Utf8Length(t) + 9 + Utf8Length(u) <= MAX_MESSAGE_BYTES
  {
    var between := "\nmessage\n";
    BetweenIsNine();
    BetweenIsShown();
    Utf8LengthConcat(t, between);
    Utf8LengthConcat(t + between, u);
    NoneInBoth(Misleads, t, between);
    NoneInBoth(Misleads, t + between, u);
    DisplayableMeans(t);
    DisplayableMeans(u);
    DisplayableMeans(t + between + u);
  }

  lemma WordLengths()
    ensures Utf8Length("message") == 7 && Utf8Length("\nmessage") == 8 && Utf8Length("message\n") == 8
  {
    BetweenIsNine();
    Utf8LengthConcat("\n", "message\n");
    Utf8LengthConcat("\nmessage", "\n");
    Utf8LengthConcat("message", "\n");
    assert "\nmessage\n" == "\n" + "message\n" == "\nmessage" + "\n" && "message\n" == "message" + "\n";
  }

  /** How long lines are that are put together. */
  lemma JoinedLength(s: seq<string>, t: seq<string>)
    requires s != [] && t != []
    ensures Utf8Length(Join(s + t, '\n')) == Utf8Length(Join(s, '\n')) + 1 + Utf8Length(Join(t, '\n'))
  {
    JoinParts(s, t, '\n');
    Utf8LengthConcat(Join(s, '\n') + "\n", Join(t, '\n'));
    Utf8LengthConcat(Join(s, '\n'), "\n");
  }

  /** A text one of whose lines is `message` is that much longer than what is before and after it. */
  lemma LinesAround(text: string, s: seq<string>, u: seq<string>)
    requires Lines(text) == s + (["message"] + u)
    ensures s != [] ==> Utf8Length(text) >= Utf8Length(Join(s, '\n')) + 8
    ensures u != [] ==> Utf8Length(text) >= 8 + Utf8Length(Join(u, '\n'))
    ensures s != [] && u != [] ==> Utf8Length(text) >= Utf8Length(Join(s, '\n')) + 9 + Utf8Length(Join(u, '\n'))
  {
    WordLengths();
    JoinSplit(text, '\n');
    var mid := ["message"];
    assert Join(mid, '\n') == "message";
    if u != [] {
      JoinedLength(mid, u);
    } else {
      assert mid + u == mid;
    }
    if s != [] {
      JoinedLength(s, mid + u);
    } else {
      assert s + (mid + u) == mid + u;
    }
  }

  lemma LongerJoined(u: seq<string>, w: seq<string>)
    requires u != []
    ensures Utf8Length(Join(u + w, '\n')) >= Utf8Length(Join(u, '\n'))
  {
    if w != [] {
      JoinedLength(u, w);
    } else {
      assert u + w == u;
    }
  }

  // ---- the changes ---------------------------------------------------------------------

  lemma SigningIsClean(lower: string -> string, a: seq<Leg>)
    requires Lowercases(lower) && AllPresentable(a)
    ensures AllClean(lower, a)
  {
    forall k | 0 <= k < |a| ensures Clean(lower, a[k]) {
      PresentableIsClean(lower, a[k]);
    }
  }

  predicate Room(leg: Leg) {
    Utf8Length(TextOf(leg)) + 8 <= MAX_MESSAGE_BYTES
  }

  predicate Fits(p: Leg, q: Leg) {
    Utf8Length(TextOf(p)) + 9 + Utf8Length(TextOf(q)) <= MAX_MESSAGE_BYTES
  }

  /** Its last line, but not its only one, is `message`. */
  predicate EndsOpen(leg: Leg) {
    var lines := Lines(TextOf(leg));
    |lines| > 1 && lines[|lines| - 1] == "message"
  }

  predicate StartsOpen(leg: Leg) {
    var lines := Lines(TextOf(leg));
    |lines| > 1 && lines[0] == "message"
  }

  /**
   The legs from `i` on can be read another way: one divided, two put together, a line handed
   on or back, a leg made of two lines that face each other, or handed out to both sides.
   */
  predicate Turns(legs: seq<Leg>, i: nat)
    requires i < |legs|
  {
    || Divisible(legs[i])
    || (i + 1 < |legs| && !legs[i].Tx? && legs[i + 1].Message? && PairTurns(legs[i], legs[i + 1]))
    || (i + 2 < |legs| && !legs[i].Tx? && legs[i + 1] == Message("message") && legs[i + 2].Message?
          && Room(legs[i]) && Room(legs[i + 2]))
  }

  predicate PairTurns(p: Leg, q: Leg) {
    || Fits(p, q)
    || (EndsOpen(p) && (Room(q) || StartsOpen(q)))
    || (StartsOpen(q) && Room(p))
  }

  predicate HasTurn(legs: seq<Leg>) {
    exists i :: 0 <= i < |legs| && Turns(legs, i)
  }

  lemma TurnInTail(legs: seq<Leg>, k: nat)
    requires k <= |legs| && HasTurn(legs[k..])
    ensures HasTurn(legs)
  {
    var tail := legs[k..];
    var i :| 0 <= i < |tail| && Turns(tail, i);
    assert Turns(legs, k + i);
  }

  // ---- two readings of the same lines --------------------------------------------------

  lemma Align(u: seq<string>, x: seq<Atom>, v: seq<string>, y: seq<Atom>)
    requires LinesOf(u) + x == LinesOf(v) + y && |u| <= |v|
    ensures v == u + v[|u|..] && x == LinesOf(v[|u|..]) + y
  {
    assert LinesOf(v) == LinesOf(v[..|u|]) + LinesOf(v[|u|..]);
    Assoc(LinesOf(v[..|u|]), LinesOf(v[|u|..]), y);
    LinesApart(u, v[..|u|], x, LinesOf(v[|u|..]) + y);
  }

  /** A leg whose first atom is a line is a message. */
  lemma OpensMessage(lower: string -> string, a: seq<Leg>, lines: seq<string>, y: seq<Atom>)
    requires lines != [] && Atoms(lower, a) == LinesOf(lines) + y
    ensures a != [] && a[0].Message? && lines[0] == "message"
    ensures LinesOf(Lines(TextOf(a[0]))) + Atoms(lower, a[1..]) == LinesOf(lines[1..]) + y
  {
    HeadLine(lines, y);
    AtomsShape(lower, a);
  }

  lemma HeadLine(lines: seq<string>, y: seq<Atom>)
    requires lines != []
    ensures LinesOf(lines) + y != []
    ensures (LinesOf(lines) + y)[0] == Line(lines[0]) && (LinesOf(lines) + y)[1..] == LinesOf(lines[1..]) + y
  {
    assert LinesOf(lines) == [Line(lines[0])] + LinesOf(lines[1..]);
    HeadAndTail(LinesOf(lines), y);
  }

  lemma OnlyLine(text: string)
    requires |Lines(text)| == 1 && Lines(text)[0] == "message"
    ensures text == "message" && Utf8Length(text) == 7
  {
    JoinSplit(text, '\n');
    WordLengths();
  }

  /** Where the second reading opens a leg one line early, a change is to be found from there on. */
  lemma {:induction false} OneLineEarly(lower: string -> string, a: seq<Leg>, b: seq<Leg>)
    requires AllPresentable(b) && Atoms(lower, b) == [Line("message")] + Atoms(lower, a)
    ensures a != [] && a[0].Message? && (Room(a[0]) || StartsOpen(a[0]) || HasTurn(a))
    decreases |a|
  {
    OpensEarly(lower, a, b);
    var u, v := Lines(TextOf(a[0])), Lines(TextOf(b[0]));
    if |u| < |v| {
      Align(u, Atoms(lower, a[1..]), v[1..], Atoms(lower, b[1..]));
      RoomBefore(a[0], b[0], u, v);
    } else if EarlyAgain(lower, a, b) {
      OneLineEarly(lower, a[1..], b[1..]);
      EarlyTurn(a);
    } else {
      EarlyInside(lower, a, b, u, |v| - 1);
    }
  }

  predicate EarlyAgain(lower: string -> string, a: seq<Leg>, b: seq<Leg>) {
    a != [] && b != [] && EndsOpen(a[0]) && Atoms(lower, b[1..]) == [Line("message")] + Atoms(lower, a[1..])
  }

  /** It ends that leg inside the first one's: it is one line early again, or there is a change. */
  lemma EarlyInside(lower: string -> string, a: seq<Leg>, b: seq<Leg>, u: seq<string>, k: nat)
    requires a != [] && b != [] && a[0].Message? && u == Lines(TextOf(a[0])) && k + 1 == |Lines(TextOf(b[0]))| && k < |u|
    requires LinesOf(u) + Atoms(lower, a[1..]) == LinesOf(Lines(TextOf(b[0]))[1..]) + Atoms(lower, b[1..])
    ensures EarlyAgain(lower, a, b) || Room(a[0]) || StartsOpen(a[0]) || HasTurn(a)
  {
    PartsAt(lower, b[1..], Lines(TextOf(b[0]))[1..], u, Atoms(lower, a[1..]));
    if 0 < k < |u| - 1 {
      assert Turns(a, 0);
    } else if k == 0 && |u| == 1 {
      OnlyLine(TextOf(a[0]));
    } else if k > 0 {
      assert u[k..] == ["message"] && LinesOf(["message"]) == [Line("message")];
    }
  }

  /** The second reading ends a leg inside these lines, and opens its next one there. */
  lemma PartsAt(lower: string -> string, rest: seq<Leg>, v: seq<string>, u: seq<string>, z: seq<Atom>)
    requires |v| < |u| && LinesOf(v) + Atoms(lower, rest) == LinesOf(u) + z
    ensures u[|v|] == "message" && Atoms(lower, rest) == LinesOf(u[|v|..]) + z
  {
    Align(v, Atoms(lower, rest), u, z);
    OpensMessage(lower, rest, u[|v|..], z);
  }

  lemma OpensEarly(lower: string -> string, a: seq<Leg>, b: seq<Leg>)
    requires Atoms(lower, b) == [Line("message")] + Atoms(lower, a)
    ensures a != [] && b != [] && a[0].Message? && b[0].Message? && Lines(TextOf(b[0]))[0] == "message"
    ensures LinesOf(Lines(TextOf(a[0]))) + Atoms(lower, a[1..]) == LinesOf(Lines(TextOf(b[0]))[1..]) + Atoms(lower, b[1..])
  {
    var x := Atoms(lower, a);
    assert [Line("message")] == LinesOf(["message"]);
    OpensMessage(lower, b, ["message"], x);
    assert LinesOf([]) + x == x;
    OpensMessage(lower, a, Lines(TextOf(b[0])), Atoms(lower, b[1..]));
  }

  lemma RoomBefore(p: Leg, q: Leg, u: seq<string>, v: seq<string>)
    requires u == Lines(TextOf(p)) && v == Lines(TextOf(q)) && Presentable(q) && !q.Tx?
    requires |u| < |v| && v[0] == "message" && v[1..] == u + v[1..][|u|..]
    ensures Room(p)
  {
    var w := v[1..][|u|..];
    assert v == [] + (["message"] + (u + w));
    LinesAround(TextOf(q), [], u + w);
    LongerJoined(u, w);
    JoinSplit(TextOf(p), '\n');
    ShownKeepsTheLimit(q);
  }

  lemma ShownKeepsTheLimit(leg: Leg)
    requires Presentable(leg) && !leg.Tx?
    ensures Utf8Length(TextOf(leg)) <= MAX_MESSAGE_BYTES
  {
  }

  /** The leg before can hand its last line on. */
  lemma EarlyTurn(a: seq<Leg>)
    requires |a| > 1 && !a[0].Tx? && EndsOpen(a[0]) && a[1].Message?
    requires Room(a[1]) || StartsOpen(a[1]) || HasTurn(a[1..])
    ensures HasTurn(a)
  {
    if HasTurn(a[1..]) {
      TurnInTail(a, 1);
    } else {
      assert PairTurns(a[0], a[0 + 1]);
      assert Turns(a, 0);
    }
  }

  // ---- no other reading without a change -----------------------------------------------

  /** Two readings that part inside the first text, the second of them opening a leg sooner. */
  lemma SoonerTurns(lower: string -> string, a: seq<Leg>, b: seq<Leg>)
    requires a != [] && b != [] && !a[0].Tx? && AllPresentable(b)
    requires |Lines(TextOf(b[0]))| < |Lines(TextOf(a[0]))|
    requires LinesOf(Lines(TextOf(a[0]))) + Atoms(lower, a[1..]) == LinesOf(Lines(TextOf(b[0]))) + Atoms(lower, b[1..])
    ensures HasTurn(a)
  {
    var s, t := Lines(TextOf(a[0])), Lines(TextOf(b[0]));
    var x := Atoms(lower, a[1..]);
    PartsAt(lower, b[1..], t, s, x);
    if |t| < |s| - 1 {
      assert Turns(a, 0);
    } else {
      assert s[|t|..] == ["message"] && EndsOpen(a[0]);
      assert [Line("message")] == LinesOf(["message"]);
      OneLineEarly(lower, a[1..], b[1..]);
      EarlyTurn(a);
    }
  }

  /** Two readings that part inside the first text, the first of them opening a leg sooner. */
  lemma LaterTurns(lower: string -> string, a: seq<Leg>, b: seq<Leg>)
    requires a != [] && b != [] && !a[0].Tx? && !b[0].Tx? && AllPresentable(b)
    requires |Lines(TextOf(a[0]))| < |Lines(TextOf(b[0]))|
    requires LinesOf(Lines(TextOf(a[0]))) + Atoms(lower, a[1..]) == LinesOf(Lines(TextOf(b[0]))) + Atoms(lower, b[1..])
    ensures HasTurn(a)
  {
    var r := OpensInside(lower, a, b);
    LongerText(a[0], b[0], Lines(TextOf(a[0])), r);
    var u, x, y := Lines(TextOf(a[1])), Atoms(lower, a[2..]), Atoms(lower, b[1..]);
    if |u| <= |r| {
      Align(u, x, r, y);
      TwoInside(a, b[0], Lines(TextOf(a[0])), u, r[|u|..]);
    } else {
      Align(r, y, u, x);
      PartsInside(lower, a, b[1..], u, |r|);
    }
  }

  lemma OpensInside(lower: string -> string, a: seq<Leg>, b: seq<Leg>) returns (r: seq<string>)
    requires a != [] && b != []
    requires |Lines(TextOf(a[0]))| < |Lines(TextOf(b[0]))|
    requires LinesOf(Lines(TextOf(a[0]))) + Atoms(lower, a[1..]) == LinesOf(Lines(TextOf(b[0]))) + Atoms(lower, b[1..])
    ensures |a| > 1 && a[1].Message?
    ensures Lines(TextOf(b[0])) == Lines(TextOf(a[0])) + (["message"] + r)
    ensures LinesOf(Lines(TextOf(a[1]))) + Atoms(lower, a[2..]) == LinesOf(r) + Atoms(lower, b[1..])
  {
    var s, t := Lines(TextOf(a[0])), Lines(TextOf(b[0]));
    var y := Atoms(lower, b[1..]);
    Align(s, Atoms(lower, a[1..]), t, y);
    OpensMessage(lower, a[1..], t[|s|..], y);
    r := t[|s|..][1..];
    assert t[|s|..] == ["message"] + r && a[1..][1..] == a[2..];
  }

  lemma LongerText(p: Leg, q: Leg, s: seq<string>, r: seq<string>)
    requires s == Lines(TextOf(p)) && Lines(TextOf(q)) == s + (["message"] + r) && Presentable(q) && !q.Tx?
    ensures Room(p)
  {
    ShownKeepsTheLimit(q);
    JoinSplit(TextOf(p), '\n');
    LinesAround(TextOf(q), s, r);
  }

  lemma TwoInside(a: seq<Leg>, q: Leg, s: seq<string>, u: seq<string>, w: seq<string>)
    requires |a| > 1 && !a[0].Tx? && a[1].Message? && s == Lines(TextOf(a[0])) && u == Lines(TextOf(a[1]))
    requires Lines(TextOf(q)) == s + (["message"] + (u + w)) && Presentable(q) && !q.Tx?
    ensures HasTurn(a)
  {
    ShownKeepsTheLimit(q);
    JoinSplit(TextOf(a[0]), '\n');
    JoinSplit(TextOf(a[1]), '\n');
    LinesAround(TextOf(q), s, u + w);
    LongerJoined(u, w);
    assert PairTurns(a[0], a[0 + 1]);
    assert Turns(a, 0);
  }

  /** The second reading opens its next leg inside the text after the first. */
  lemma PartsInside(lower: string -> string, a: seq<Leg>, rest: seq<Leg>, u: seq<string>, k: nat)
    requires |a| > 1 && !a[0].Tx? && a[1].Message? && u == Lines(TextOf(a[1])) && k < |u| && AllPresentable(rest)
    requires Atoms(lower, rest) == LinesOf(u[k..]) + Atoms(lower, a[2..])
    requires Room(a[0])
    ensures HasTurn(a)
  {
    var z := Atoms(lower, a[2..]);
    OpensMessage(lower, rest, u[k..], z);
    assert a[0 + 1] == a[1];
    if 0 < k < |u| - 1 {
      assert Turns(a, 1);
    } else if k == 0 && |u| > 1 {
      assert PairTurns(a[0], a[0 + 1]);
      assert Turns(a, 0);
    } else {
      assert u[k..] == ["message"] && [Line("message")] == LinesOf(["message"]);
      OneLineEarly(lower, a[2..], rest);
      assert a[2..] == a[1..][1..];
      if k > 0 {
        EarlyTurn(a[1..]);
        TurnInTail(a, 1);
      } else {
        OnlyLine(TextOf(a[1]));
        LoneLineTurns(a);
      }
    }
  }

  /** A leg of one line can hand it to the sides. */
  lemma LoneLineTurns(a: seq<Leg>)
    requires |a| > 2 && !a[0].Tx? && a[1] == Message("message") && a[2].Message?
    requires Room(a[0]) && Room(a[1]) && (Room(a[2]) || StartsOpen(a[2]) || HasTurn(a[2..]))
    ensures HasTurn(a)
  {
    if HasTurn(a[2..]) {
      TurnInTail(a, 2);
    } else if Room(a[2]) {
      assert a[0 + 1] == a[1] && a[0 + 2] == a[2];
      assert Turns(a, 0);
    } else {
      assert PairTurns(a[1], a[1 + 1]);
      assert Turns(a, 1);
    }
  }

  /** Where no change is to be found, there is no second reading. */
  lemma {:induction false} NoTurnNoReading(lower: string -> string, a: seq<Leg>, b: seq<Leg>)
    requires AllPresentable(b) && Atoms(lower, a) == Atoms(lower, b) && !HasTurn(a)
    ensures AllAlike(lower, a, b)
  {
    EmptyAlike(lower, a, b);
    if a != [] {
      FirstReadAlike(lower, a, b);
      NoTurnNoReading(lower, a[1..], b[1..]);
      Shifted(lower, a, b);
    }
  }

  lemma EmptyAlike(lower: string -> string, a: seq<Leg>, b: seq<Leg>)
    requires Atoms(lower, a) == Atoms(lower, b)
    ensures a == [] <==> b == []
  {
    if a != [] {
      AtomsShape(lower, a);
    }
    if b != [] {
      AtomsShape(lower, b);
    }
  }

  lemma FirstReadAlike(lower: string -> string, a: seq<Leg>, b: seq<Leg>)
    requires a != [] && b != [] && AllPresentable(b) && Atoms(lower, a) == Atoms(lower, b) && !HasTurn(a)
    ensures Alike(lower, a[0], b[0]) && Atoms(lower, a[1..]) == Atoms(lower, b[1..]) && !HasTurn(a[1..])
  {
    AtomsShape(lower, a);
    AtomsShape(lower, b);
    FirstAtomTellsKind(lower, a[0], b[0]);
    if a[0].Tx? {
      assert [] + Atoms(lower, a[1..]) == Atoms(lower, a[1..]) && [] + Atoms(lower, b[1..]) == Atoms(lower, b[1..]);
    } else {
      SameFirstText(lower, a, b);
    }
    SameHeadAtoms(lower, a[0], b[0]);
    if HasTurn(a[1..]) {
      TurnInTail(a, 1);
    }
  }

  lemma SameFirstText(lower: string -> string, a: seq<Leg>, b: seq<Leg>)
    requires a != [] && b != [] && !a[0].Tx? && !b[0].Tx? && AllPresentable(b) && !HasTurn(a)
    requires LinesOf(Lines(TextOf(a[0]))) + Atoms(lower, a[1..]) == LinesOf(Lines(TextOf(b[0]))) + Atoms(lower, b[1..])
    ensures TextOf(a[0]) == TextOf(b[0]) && Atoms(lower, a[1..]) == Atoms(lower, b[1..])
  {
    var s, t := Lines(TextOf(a[0])), Lines(TextOf(b[0]));
    if |t| < |s| {
      SoonerTurns(lower, a, b);
    } else if |s| < |t| {
      LaterTurns(lower, a, b);
    }
    LinesApart(s, t, Atoms(lower, a[1..]), Atoms(lower, b[1..]));
    SameLines(TextOf(a[0]), TextOf(b[0]));
  }

  // ---- every change is another reading -------------------------------------------------

  lemma EndsLines(x: string)
    ensures Lines(x + "\nmessage") == Lines(x) + ["message"]
  {
    assert x + "\nmessage" == x + "\n" + "message";
    SplitConcat(x, "message", '\n');
    SplitOfPiece("message", '\n');
  }

  lemma OneLineMore(lower: string -> string, p: Leg, x: string, longer: string, line: string)
    requires !p.Tx? && Lines(longer) == Lines(x) + [line]
    ensures LegAtoms(lower, WithText(p, longer)) == LegAtoms(lower, WithText(p, x)) + [Line(line)]
  {
    assert LinesOf(Lines(x) + [line]) == LinesOf(Lines(x)) + [Line(line)];
    LegAtomsShape(lower, WithText(p, longer));
    LegAtomsShape(lower, WithText(p, x));
    var all, most := LegAtoms(lower, WithText(p, longer)), LegAtoms(lower, WithText(p, x));
    assert all == [all[0]] + all[1..] && most == [most[0]] + most[1..];
  }

  lemma EndsAtoms(lower: string -> string, p: Leg, x: string)
    requires !p.Tx?
    ensures LegAtoms(lower, WithText(p, x + "\nmessage")) == LegAtoms(lower, WithText(p, x)) + [Line("message")]
  {
    EndsLines(x);
    OneLineMore(lower, p, x, x + "\nmessage", "message");
  }

  lemma StartsAtoms(lower: string -> string, y: string)
    ensures LegAtoms(lower, Message("message\n" + y)) == [Line("message")] + LegAtoms(lower, Message(y))
  {
    assert "message\n" + y == "message" + "\n" + y;
    SplitAtFirst("message", y, '\n');
    assert LinesOf(["message"] + Lines(y)) == [Line("message")] + LinesOf(Lines(y));
  }

  lemma LoneAtoms(lower: string -> string)
    ensures LegAtoms(lower, Message("message")) == [Line("message")] + [Line("message")]
  {
    SplitOfPiece("message", '\n');
    assert LinesOf(["message"]) == [Line("message")];
  }

  /** A line handed from the end of one leg to the start of the next. */
  lemma HandedOn(lower: string -> string, p: Leg, x: string, y: string)
    requires !p.Tx?
    ensures Atoms(lower, [WithText(p, x + "\nmessage"), Message(y)]) == Atoms(lower, [WithText(p, x), Message("message\n" + y)])
  {
    AtomsOfTwo(lower, WithText(p, x + "\nmessage"), Message(y));
    AtomsOfTwo(lower, WithText(p, x), Message("message\n" + y));
    EndsAtoms(lower, p, x);
    StartsAtoms(lower, y);
    Assoc(LegAtoms(lower, WithText(p, x)), [Line("message")], LegAtoms(lower, Message(y)));
  }

  /** Two lines that face each other, made a leg. */
  lemma MadeALeg(lower: string -> string, p: Leg, x: string, y: string)
    requires !p.Tx?
    ensures Atoms(lower, [WithText(p, x + "\nmessage"), Message("message\n" + y)]) ==
            Atoms(lower, [WithText(p, x), Message("message"), Message(y)])
  {
    var head, tail := [WithText(p, x), Message("message")], [Message(y)];
    assert [WithText(p, x), Message("message"), Message(y)] == head + tail;
    AtomsConcat(lower, head, tail);
    AtomsOfTwo(lower, WithText(p, x), Message("message"));
    AtomsOfOne(lower, Message(y));
    AtomsOfTwo(lower, WithText(p, x + "\nmessage"), Message("message\n" + y));
    EndsAtoms(lower, p, x);
    StartsAtoms(lower, y);
    LoneAtoms(lower);
    var m := [Line("message")];
    Assoc(LegAtoms(lower, WithText(p, x)), m, m);
    Assoc(LegAtoms(lower, WithText(p, x)) + m, m, LegAtoms(lower, Message(y)));
  }

  lemma LastApart(text: string) returns (x: string)
    requires |Lines(text)| > 1 && Lines(text)[|Lines(text)| - 1] == "message"
    ensures text == x + "\n" + "message"
  {
    var lines := Lines(text);
    var pre := lines[..|lines| - 1];
    x := Join(pre, '\n');
    assert lines == pre + ["message"];
    JoinSplit(text, '\n');
    JoinParts(pre, ["message"], '\n');
  }

  lemma EndsWithLine(leg: Leg) returns (x: string)
    requires EndsOpen(leg)
    ensures !leg.Tx? && TextOf(leg) == x + "\nmessage" && WithText(leg, x + "\nmessage") == leg
  {
    assert Lines("") == [""];
    x := LastApart(TextOf(leg));
    assert x + "\n" + "message" == x + "\nmessage";
  }

  lemma StartsWithLine(leg: Leg) returns (y: string)
    requires StartsOpen(leg) && leg.Message?
    ensures leg == Message("message\n" + y)
  {
    var lines := Lines(TextOf(leg));
    var post := lines[1..];
    y := Join(post, '\n');
    assert lines == ["message"] + post;
    JoinSplit(TextOf(leg), '\n');
    JoinParts(["message"], post, '\n');
    assert "message" + "\n" + y == "message\n" + y;
  }

  /** A line more can be shown where there is room for it. */
  lemma DisplayableLonger(x: string)
    ensures Displayable(x + "\nmessage") <==> Displayable(x) && Utf8Length(x) + 8 <= MAX_MESSAGE_BYTES
    ensures Displayable("message\n" + x) <==> Displayable(x) && Utf8Length(x) + 8 <= MAX_MESSAGE_BYTES
    ensures Displayable("message")
  {
    WordLengths();
    BetweenIsShown();
    assert "\nmessage\n" == "\nmessage" + "\n" == "\n" + "message\n" && "message\n" == "message" + "\n";
    NoneInBoth(Misleads, "\nmessage", "\n");
    NoneInBoth(Misleads, "\n", "message\n");
    NoneInBoth(Misleads, "message", "\n");
    Utf8LengthConcat(x, "\nmessage");
    Utf8LengthConcat("message\n", x);
    NoneInBoth(Misleads, x, "\nmessage");
    NoneInBoth(Misleads, "message\n", x);
    DisplayableMeans(x);
    DisplayableMeans(x + "\nmessage");
    DisplayableMeans("message\n" + x);
    DisplayableMeans("message");
  }

  lemma PresentableEnds(p: Leg, x: string)
    requires !p.Tx?
    ensures Presentable(WithText(p, x + "\nmessage")) <==> Presentable(WithText(p, x)) && Room(WithText(p, x))
  {
    DisplayableLonger(x);
  }

  lemma PresentableStarts(y: string)
    ensures Presentable(Message("message\n" + y)) <==> Presentable(Message(y)) && Room(Message(y))
    ensures Presentable(Message("message"))
  {
    DisplayableLonger(y);
  }

  predicate SignAlike(a: seq<Leg>, b: seq<Leg>) {
    |a| == |b| && forall i :: 0 <= i < |a| ==> PayloadOf(a[i]) == PayloadOf(b[i])
  }

  /** Another bundle that signs and has the same atoms, and signs something else. */
  predicate Double(lower: string -> string, a: seq<Leg>, b: seq<Leg>) {
    AllPresentable(b) && Atoms(lower, b) == Atoms(lower, a) && !SignAlike(a, b)
  }

  lemma PresentableInside(pre: seq<Leg>, mid: seq<Leg>, post: seq<Leg>)
    requires AllPresentable(pre) && AllPresentable(mid) && AllPresentable(post)
    ensures AllPresentable(pre + mid + post)
  {
  }

  /** What stands in for two legs, and which of it is signed differently if it is two legs too. */
  predicate Instead(lower: string -> string, x: seq<Leg>, y: seq<Leg>) {
    && AllPresentable(y) && Atoms(lower, x) == Atoms(lower, y)
    && (|x| != |y| || (|x| > 1 && PayloadOf(x[1]) != PayloadOf(y[1])))
  }

  /** Some legs replaced by others with the same atoms. */
  lemma Replaced(lower: string -> string, pre: seq<Leg>, x: seq<Leg>, y: seq<Leg>, post: seq<Leg>)
    requires AllPresentable(pre) && AllPresentable(post) && Instead(lower, x, y)
    ensures Double(lower, pre + x + post, pre + y + post)
  {
    AtomsInside(lower, pre, x, y, post);
    PresentableInside(pre, y, post);
    if |x| == |y| {
      assert (pre + x + post)[|pre| + 1] == x[1] && (pre + y + post)[|pre| + 1] == y[1];
    }
  }

  lemma TwoPresentable(p: Leg, q: Leg)
    requires Presentable(p) && Presentable(q)
    ensures AllPresentable([p, q])
  {
  }

  lemma ThreePresentable(p: Leg, q: Leg, r: Leg)
    requires Presentable(p) && Presentable(q) && Presentable(r)
    ensures AllPresentable([p, q, r])
  {
  }

  lemma LineHandedOn(lower: string -> string, p: Leg, q: Leg) returns (mid: seq<Leg>)
    requires Presentable(p) && Presentable(q) && q.Message? && EndsOpen(p) && Room(q)
    ensures Instead(lower, [p, q], mid)
  {
    var x := EndsWithLine(p);
    PresentableEnds(p, x);
    PresentableStarts(q.text);
    HandedOn(lower, p, x, q.text);
    mid := [WithText(p, x), Message("message\n" + q.text)];
    TwoPresentable(WithText(p, x), Message("message\n" + q.text));
    assert |q.text| != |mid[1].text|;
  }

  lemma LineHandedBack(lower: string -> string, p: Leg, q: Leg) returns (mid: seq<Leg>)
    requires Presentable(p) && Presentable(q) && !p.Tx? && q.Message? && StartsOpen(q) && Room(p)
    ensures Instead(lower, [p, q], mid)
  {
    var y := StartsWithLine(q);
    assert WithText(p, TextOf(p)) == p;
    PresentableStarts(y);
    PresentableEnds(p, TextOf(p));
    HandedOn(lower, p, TextOf(p), y);
    mid := [WithText(p, TextOf(p) + "\nmessage"), Message(y)];
    TwoPresentable(WithText(p, TextOf(p) + "\nmessage"), Message(y));
    assert |q.text| != |y|;
  }

  lemma FacingLines(lower: string -> string, p: Leg, q: Leg) returns (mid: seq<Leg>)
    requires Presentable(p) && Presentable(q) && q.Message? && EndsOpen(p) && StartsOpen(q)
    ensures Instead(lower, [p, q], mid)
  {
    var x := EndsWithLine(p);
    var y := StartsWithLine(q);
    PresentableEnds(p, x);
    PresentableStarts(y);
    MadeALeg(lower, p, x, y);
    mid := [WithText(p, x), Message("message"), Message(y)];
    ThreePresentable(WithText(p, x), Message("message"), Message(y));
  }

  lemma PairDoubles(lower: string -> string, p: Leg, q: Leg) returns (mid: seq<Leg>)
    requires Presentable(p) && Presentable(q) && !p.Tx? && q.Message? && PairTurns(p, q)
    ensures Instead(lower, [p, q], mid)
  {
    if Fits(p, q) {
      mid := MergedPair(lower, p, q);
    } else if EndsOpen(p) && Room(q) {
      mid := LineHandedOn(lower, p, q);
    } else if EndsOpen(p) && StartsOpen(q) {
      mid := FacingLines(lower, p, q);
    } else {
      mid := LineHandedBack(lower, p, q);
    }
  }

  lemma MergedPair(lower: string -> string, p: Leg, q: Leg) returns (mid: seq<Leg>)
    requires Presentable(p) && Presentable(q) && !p.Tx? && q.Message? && Fits(p, q)
    ensures AllPresentable(mid) && Atoms(lower, [p, q]) == Atoms(lower, mid) && |mid| == 1
  {
    var merged := WithText(p, TextOf(p) + "\nmessage\n" + q.text);
    DisplayableTogether(TextOf(p), q.text);
    DividedLeg(lower, merged, TextOf(p), q.text);
    AtomsOfOne(lower, merged);
    AtomsOfTwo(lower, p, q);
    mid := [merged];
  }

  lemma DividedSigns(lower: string -> string, p: Leg) returns (mid: seq<Leg>)
    requires Presentable(p) && Divisible(p)
    ensures AllPresentable(mid) && Atoms(lower, [p]) == Atoms(lower, mid) && |mid| == 2
  {
    var k :| 0 < k < |Lines(TextOf(p))| - 1 && Lines(TextOf(p))[k] == "message";
    var t, u := Divides(TextOf(p), k);
    DivisibleIsText(p);
    DisplayableTogether(t, u);
    DividedLeg(lower, p, t, u);
    AtomsOfOne(lower, p);
    AtomsOfTwo(lower, WithText(p, t), Message(u));
    mid := [WithText(p, t), Message(u)];
  }

  lemma LoneLegDoubles(lower: string -> string, p: Leg, q: Leg) returns (mid: seq<Leg>)
    requires Presentable(p) && Presentable(q) && !p.Tx? && q.Message? && Room(p) && Room(q)
    ensures AllPresentable(mid) && Atoms(lower, [p, Message("message"), q]) == Atoms(lower, mid) && |mid| == 2
  {
    assert WithText(p, TextOf(p)) == p;
    PresentableEnds(p, TextOf(p));
    PresentableStarts(q.text);
    MadeALeg(lower, p, TextOf(p), q.text);
    mid := [WithText(p, TextOf(p) + "\nmessage"), Message("message\n" + q.text)];
    TwoPresentable(WithText(p, TextOf(p) + "\nmessage"), Message("message\n" + q.text));
  }

  lemma AroundThree(a: seq<Leg>, i: nat)
    requires i + 2 < |a|
    ensures a == a[..i] + [a[i], a[i + 1], a[i + 2]] + a[i + 3..]
  {
  }

  /** The first `n` legs from `i` on replaced. */
  lemma ReplacedAt(lower: string -> string, a: seq<Leg>, i: nat, x: seq<Leg>, mid: seq<Leg>)
    requires AllPresentable(a) && i + |x| <= |a| && a == a[..i] + x + a[i + |x|..] && Instead(lower, x, mid)
    ensures Double(lower, a, a[..i] + mid + a[i + |x|..])
  {
    Replaced(lower, a[..i], x, mid, a[i + |x|..]);
  }

  lemma TurnsDouble(lower: string -> string, a: seq<Leg>, i: nat) returns (b: seq<Leg>)
    requires AllPresentable(a) && i < |a| && Turns(a, i)
    ensures Double(lower, a, b)
  {
    if Divisible(a[i]) {
      var mid := DividedSigns(lower, a[i]);
      AroundOne(a, i);
      ReplacedAt(lower, a, i, [a[i]], mid);
      b := a[..i] + mid + a[i + 1..];
    } else if i + 1 < |a| && !a[i].Tx? && a[i + 1].Message? && PairTurns(a[i], a[i + 1]) {
      var mid := PairDoubles(lower, a[i], a[i + 1]);
      AroundTwo(a, i);
      ReplacedAt(lower, a, i, [a[i], a[i + 1]], mid);
      b := a[..i] + mid + a[i + 2..];
    } else {
      var mid := LoneLegDoubles(lower, a[i], a[i + 2]);
      AroundThree(a, i);
      ReplacedAt(lower, a, i, [a[i], a[i + 1], a[i + 2]], mid);
      b := a[..i] + mid + a[i + 3..];
    }
  }
}
