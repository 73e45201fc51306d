/**
 What folding the case of a field does to what it holds.

 The commitment takes every transaction field through `str::trim` and `str::to_lowercase`
 (`commitment` of rust-lib/src/approval.rs). Which texts come out of that as they went in decides
 what a field can stand for.
 */
module CaseFold {
  import opened Base
  import opened Text
  import opened TxForm
  import opened Commitment

  // ---- the case fold -------------------------------------------------------------------

  ghost predicate FoldsOnce(lower: string -> string, s: string) {
    lower(lower(s)) == lower(s) && (Trim(s) == s ==> Trim(lower(s)) == lower(s))
  }

  ghost predicate FoldsApart(lower: string -> string, s: string, t: string) {
    && lower(s + "\n" + t) == lower(s) + "\n" + lower(t)
    && lower(s + [UNIT_SEPARATOR] + t) == lower(s) + [UNIT_SEPARATOR] + lower(t)
  }

  /**
   What more is asked of `str::to_lowercase`: a second time it changes nothing, it makes no
   white space, and it works on what is before and after a newline or a separator apart.
   */
  ghost predicate Folds(lower: string -> string) {
    && Lowercases(lower)
    && (forall s :: FoldsOnce(lower, s))
    && (forall s, t :: FoldsApart(lower, s, t))
  }

  /** Lowercasing ASCII alone is one such fold. */
  lemma AsciiFolds()
    ensures Folds(AsciiLower)
  {
    forall s ensures FoldsOnce(AsciiLower, s) {
      assert AsciiLower(AsciiLower(s)) == AsciiLower(s);
      TrimmedExactly(s);
      TrimmedExactly(AsciiLower(s));
    }
    forall s, t ensures FoldsApart(AsciiLower, s, t) {
      assert AsciiLower(s + "\n" + t) == AsciiLower(s) + "\n" + AsciiLower(t);
      assert AsciiLower(s + [UNIT_SEPARATOR] + t) == AsciiLower(s) + [UNIT_SEPARATOR] + AsciiLower(t);
    }
  }

  predicate Still(lower: string -> string, s: string) {
    lower(s) == s
  }

  function Mapped(lower: string -> string, parts: seq<string>): seq<string> {
    seq(|parts|, i requires 0 <= i < |parts| => lower(parts[i]))
  }

  lemma FirstApart(s: string, c: char) returns (head: string, tail: string)
    requires !Free(s, c)
    ensures s == head + [c] + tail && Free(head, c) && |tail| < |s|
  {
    var k := 0;
    while s[k] != c
      invariant k < |s| && Free(s[..k], c) && !Free(s, c)
      decreases |s| - k
    {
      k := k + 1;
    }
    head, tail := s[..k], s[k + 1..];
  }

  predicate Breaker(c: char) {
    c == '\n' || c == UNIT_SEPARATOR
  }

  lemma {:induction false} SplitFolds(lower: string -> string, s: string, c: char)
    requires Folds(lower) && Breaker(c)
    ensures Split(lower(s), c) == Mapped(lower, Split(s, c))
    decreases |s|
  {
    if Free(s, c) {
      SplitOfPiece(s, c);
      SplitOfPiece(lower(s), c);
    } else {
      var head, tail := FirstApart(s, c);
      FoldsAt(lower, head, c, tail);
      SplitAtFirst(head, tail, c);
      SplitAtFirst(lower(head), lower(tail), c);
      SplitFolds(lower, tail, c);
      MappedHead(lower, head, Split(tail, c));
    }
  }

  lemma FoldsAt(lower: string -> string, head: string, c: char, tail: string)
    requires Folds(lower) && Breaker(c)
    ensures lower(head + [c] + tail) == lower(head) + [c] + lower(tail)
    ensures Free(head, c) ==> Free(lower(head), c)
  {
    assert FoldsApart(lower, head, tail);
  }

  lemma MappedHead(lower: string -> string, head: string, tail: seq<string>)
    ensures Mapped(lower, [head] + tail) == [lower(head)] + Mapped(lower, tail)
  {
  }

  /** A text is its own fold exactly if it is on both sides of a newline or a separator. */
  lemma StillApart(lower: string -> string, s: string, c: char, t: string)
    requires Folds(lower) && Breaker(c)
    ensures Still(lower, s + [c] + t) <==> Still(lower, s) && Still(lower, t)
  {
    assert FoldsApart(lower, s, t);
    if Still(lower, s + [c] + t) {
      SplitFolds(lower, s, c);
      SplitFolds(lower, t, c);
      SplitConcat(s, t, c);
      SplitConcat(lower(s), lower(t), c);
      var l, r := Split(s, c), Split(t, c);
      assert Mapped(lower, l) + Mapped(lower, r) == l + r;
      assert (l + r)[..|l|] == l && (l + r)[|l|..] == r;
      assert (Mapped(lower, l) + Mapped(lower, r))[..|l|] == Mapped(lower, l);
      assert (Mapped(lower, l) + Mapped(lower, r))[|l|..] == Mapped(lower, r);
      JoinSplit(s, c);
      JoinSplit(t, c);
      JoinSplit(lower(s), c);
      JoinSplit(lower(t), c);
    }
  }

  // ---- trimmed text --------------------------------------------------------------------

  lemma {:induction false} TrimStartCuts(s: string)
    ensures |TrimStart(s)| <= |s| && (TrimStart(s) != "" ==> !IsWhite(TrimStart(s)[0]))
    ensures |TrimStart(s)| == |s| ==> TrimStart(s) == s
  {
    if s != "" && IsWhite(s[0]) {
      TrimStartCuts(s[1..]);
    }
  }

  lemma {:induction false} TrimEndCuts(s: string)
    ensures |TrimEnd(s)| <= |s| && TrimEnd(s) == s[..|TrimEnd(s)|]
    ensures TrimEnd(s) != "" ==> !IsWhite(TrimEnd(s)[|TrimEnd(s)| - 1])
  {
    if s != "" && IsWhite(s[|s| - 1]) {
      TrimEndCuts(s[..|s| - 1]);
    }
  }

  predicate Trimmed(s: string) {
    s == "" || (!IsWhite(s[0]) && !IsWhite(s[|s| - 1]))
  }

  lemma TrimmedExactly(s: string)
    ensures Trimmed(Trim(s)) && (Trim(s) == s <==> Trimmed(s))
  {
    TrimStartCuts(s);
    TrimEndCuts(TrimStart(s));
    if Trimmed(s) && s != "" {
      TrimKeepsBounded(s);
    }
  }

  /** The twenty-five characters Unicode calls white space. */
  const WHITE_SPACE: string := "\t\n\U{B}\U{C}\r \U{85}\U{A0}\U{1680}\U{2000}\U{2001}\U{2002}\U{2003}\U{2004}\U{2005}\U{2006}\U{2007}\U{2008}\U{2009}\U{200A}\U{2028}\U{2029}\U{202F}\U{205F}\U{3000}"

  lemma WhiteSpaceExactly(c: char)
    ensures IsWhite(c) <==> c in WHITE_SPACE
    ensures |WHITE_SPACE| == 25
  {
  }

  predicate AllWhite(s: string) {
    forall i :: 0 <= i < |s| ==> IsWhite(s[i])
  }

  lemma {:induction false} TrimStartDrops(s: string) returns (pre: string)
    ensures s == pre + TrimStart(s) && AllWhite(pre)
  {
    pre := "";
    if s != "" && IsWhite(s[0]) {
      var more := TrimStartDrops(s[1..]);
      pre := [s[0]] + more;
    }
  }

  lemma {:induction false} TrimEndDrops(s: string) returns (post: string)
    ensures s == TrimEnd(s) + post && AllWhite(post)
  {
    post := "";
    if s != "" && IsWhite(s[|s| - 1]) {
      var more := TrimEndDrops(s[..|s| - 1]);
      post := more + [s[|s| - 1]];
    }
  }

  /** Trimming takes the white space in front and behind, all of it and nothing else. */
  lemma TrimExactly(s: string) returns (pre: string, post: string)
    ensures s == pre + Trim(s) + post && AllWhite(pre) && AllWhite(post) && Trimmed(Trim(s))
  {
    pre := TrimStartDrops(s);
    post := TrimEndDrops(TrimStart(s));
    TrimmedExactly(s);
  }

  /** What a field can be committed as. */
  predicate Settles(lower: string -> string, s: string) {
    Still(lower, s) && Trimmed(s)
  }

  lemma FieldSettles(lower: string -> string, s: string)
    requires Folds(lower)
    ensures Settles(lower, lower(Trim(s)))
  {
    TrimmedExactly(s);
    TrimmedExactly(Trim(s));
    assert FoldsOnce(lower, Trim(s));
    TrimmedExactly(lower(Trim(s)));
  }

  /** The ten fields as they were submitted. */
  function Submitted(tx: UnsignedTx): seq<string> {
    [if tx.to.Some? then tx.to.value else "", FlagText(tx.create), tx.value, tx.nonce, tx.gasLimit, tx.data, tx.feeMode,
     tx.maxFeePerGas, tx.maxPriorityFeePerGas, tx.gasPrice]
  }

  lemma FieldsAre(lower: string -> string, tx: UnsignedTx, i: nat)
    requires i < 10
    ensures |Fields(lower, tx)| == 10 && Fields(lower, tx)[i] == lower(Trim(Submitted(tx)[i]))
  {
    var f, g := Fields(lower, tx), Submitted(tx);
    assert f[0] == lower(Trim(g[0])) && f[1] == lower(Trim(g[1])) && f[2] == lower(Trim(g[2])) && f[3] == lower(Trim(g[3]));
    assert f[4] == lower(Trim(g[4])) && f[5] == lower(Trim(g[5])) && f[6] == lower(Trim(g[6])) && f[7] == lower(Trim(g[7]));
  }

  lemma FieldsSettle(lower: string -> string, tx: UnsignedTx)
    requires Folds(lower)
    ensures |Fields(lower, tx)| == 10 && forall i :: 0 <= i < 10 ==> Settles(lower, Fields(lower, tx)[i])
  {
    forall i: nat | i < 10 ensures Settles(lower, Fields(lower, tx)[i]) {
      FieldsAre(lower, tx, i);
      FieldSettles(lower, Submitted(tx)[i]);
    }
  }
}
