/**
 The text handling the keystore's formats rest on: decimal and hexadecimal numerals,
 trimming, ASCII case, and `/`-separated names.

 A Rust `str` is modelled as the sequence of its scalar values.
 */
module Text {
  import opened Base

  // ---- characters ------------------------------------------------------------------

  predicate IsDigit(c: char) {
    '0' <= c <= '9'
  }

  /** The alphabet this keystore writes hex in. */
  predicate IsLowerHex(c: char) {
    IsDigit(c) || 'a' <= c <= 'f'
  }

  predicate IsAscii(c: char) {
    c < '\U{80}'
  }

  /** Unicode White_Space, which is what `str::trim` removes. */
  predicate IsWhite(c: char) {
    || '\U{09}' <= c <= '\U{0D}'
    || c == ' ' || c == '\U{85}' || c == '\U{A0}' || c == '\U{1680}'
    || '\U{2000}' <= c <= '\U{200A}'
    || c == '\U{2028}' || c == '\U{2029}' || c == '\U{202F}' || c == '\U{205F}' || c == '\U{3000}'
  }

  predicate AllDigits(s: string) {
    forall i :: 0 <= i < |s| ==> IsDigit(s[i])
  }

  predicate AllAscii(s: string) {
    forall i :: 0 <= i < |s| ==> IsAscii(s[i])
  }

  predicate Free(s: string, sep: char) {
    forall i :: 0 <= i < |s| ==> s[i] != sep
  }

  predicate IsHex(s: string, n: nat) {
    |s| == n && forall i :: 0 <= i < |s| ==> IsLowerHex(s[i])
  }

  // ---- prefixes and suffixes -------------------------------------------------------

  predicate StartsWith(s: string, p: string) {
    |p| <= |s| && s[..|p|] == p
  }

  function StripPrefix(s: string, p: string): Option<string> {
    if StartsWith(s, p) then Some(s[|p|..]) else None
  }

  function StripSuffix(s: string, p: string): Option<string> {
    if |p| <= |s| && s[|s| - |p|..] == p then Some(s[..|s| - |p|]) else None
  }

  lemma StripPrefixInverts(s: string, p: string, rest: string)
    ensures StripPrefix(s, p) == Some(rest) <==> s == p + rest
  {
    if s == p + rest {
      assert s[|p|..] == rest;
    }
  }

  lemma StripSuffixInverts(s: string, p: string, stem: string)
    ensures StripSuffix(s, p) == Some(stem) <==> s == stem + p
  {
    if s == stem + p {
      assert s[|s| - |p|..] == p;
      assert s[..|s| - |p|] == stem;
    }
  }

  // ---- trimming and case -----------------------------------------------------------

  function TrimStart(s: string): string {
    if s != "" && IsWhite(s[0]) then TrimStart(s[1..]) else s
  }

  function TrimEnd(s: string): string {
    if s != "" && IsWhite(s[|s| - 1]) then TrimEnd(s[..|s| - 1]) else s
  }

  function Trim(s: string): string {
    TrimEnd(TrimStart(s))
  }

  lemma TrimKeepsBounded(s: string)
    requires s != "" && !IsWhite(s[0]) && !IsWhite(s[|s| - 1])
    ensures Trim(s) == s
  {
  }

  /** `str::trim_start_matches`: the prefix is removed as often as it is there. */
  function TrimStartMatches(s: string, p: string): string
    requires p != ""
  {
    if StartsWith(s, p) then TrimStartMatches(s[|p|..], p) else s
  }

  function LowerChar(c: char): char {
    if 'A' <= c <= 'Z' then ((c as int) + 32) as char else c
  }

  function AsciiLower(s: string): (r: string)
    ensures |r| == |s|
    ensures forall i :: 0 <= i < |s| ==> r[i] == LowerChar(s[i])
  {
    seq(|s|, i requires 0 <= i < |s| => LowerChar(s[i]))
  }

  lemma AsciiLowerSlice(s: string, lo: nat, hi: nat)
    requires lo <= hi <= |s|
    ensures AsciiLower(s[lo..hi]) == AsciiLower(s)[lo..hi]
  {
    var a, b := AsciiLower(s[lo..hi]), AsciiLower(s)[lo..hi];
    forall i | 0 <= i < hi - lo ensures a[i] == b[i] {
      assert s[lo..hi][i] == s[lo + i];
    }
  }

  // ---- numerals --------------------------------------------------------------------

  function DigitChar(d: nat): char
    requires d < 16
  {
    if d < 10 then ('0' as int + d) as char else ('a' as int + d - 10) as char
  }

  /** The value of one digit of either case, or 16 where it is none. */
  function DigitValue(c: char): nat {
    if IsDigit(c) then (c as int - '0' as int) as nat
    else if 'a' <= c <= 'f' then (c as int - 'a' as int + 10) as nat
    else if 'A' <= c <= 'F' then (c as int - 'A' as int + 10) as nat
    else 16
  }

  /** A number in `radix`, most significant digit first, without leading zeros. */
  function Numeral(n: nat, radix: nat): string
    requires radix == 10 || radix == 16
  {
    if n < radix then [DigitChar(n)] else Numeral(n / radix, radix) + [DigitChar(n % radix)]
  }

  function NumeralValue(s: string, radix: nat): nat {
    if s == "" then 0 else NumeralValue(s[..|s| - 1], radix) * radix + DigitValue(s[|s| - 1])
  }

  predicate AllDigitsOf(s: string, radix: nat) {
    forall i :: 0 <= i < |s| ==> DigitValue(s[i]) < radix
  }

  function Dec(n: nat): string {
    Numeral(n, 10)
  }

  lemma NumeralAppend(s: string, c: char, radix: nat)
    ensures NumeralValue(s + [c], radix) == NumeralValue(s, radix) * radix + DigitValue(c)
  {
    assert (s + [c])[..|s|] == s;
  }

  lemma DigitRoundTrip(d: nat)
    requires d < 16
    ensures DigitValue(DigitChar(d)) == d
  {
  }

  lemma QuotientAndRest(n: nat, radix: nat)
    requires radix == 10 || radix == 16
    ensures n / radix * radix + n % radix == n
  {
    if radix == 10 {
      assert n / 10 * 10 + n % 10 == n;
    } else {
      assert n / 16 * 16 + n % 16 == n;
    }
  }

  lemma {:induction false} NumeralRoundTrip(n: nat, radix: nat)
    requires radix == 10 || radix == 16
    ensures Numeral(n, radix) != ""
    ensures AllDigitsOf(Numeral(n, radix), radix)
    ensures NumeralValue(Numeral(n, radix), radix) == n
  {
    if n < radix {
      DigitRoundTrip(n);
      assert "" + [DigitChar(n)] == [DigitChar(n)];
      NumeralAppend("", DigitChar(n), radix);
    } else {
      var head, d := n / radix, n % radix;
      NumeralRoundTrip(head, radix);
      DigitRoundTrip(d);
      NumeralAppend(Numeral(head, radix), DigitChar(d), radix);
      QuotientAndRest(n, radix);
    }
  }

  lemma DecRoundTrip(n: nat)
    ensures Dec(n) != "" && AllDigits(Dec(n)) && NumeralValue(Dec(n), 10) == n
  {
    NumeralRoundTrip(n, 10);
  }

  lemma NumeralInjective(m: nat, n: nat, radix: nat)
    requires radix == 10 || radix == 16
    requires Numeral(m, radix) == Numeral(n, radix)
    ensures m == n
  {
    NumeralRoundTrip(m, radix);
    NumeralRoundTrip(n, radix);
  }

  /** Reading a numeral does not depend on the case it is written in. */
  lemma {:induction false} NumeralValueIgnoresCase(s: string, radix: nat)
    ensures NumeralValue(AsciiLower(s), radix) == NumeralValue(s, radix)
    ensures AllDigitsOf(AsciiLower(s), radix) == AllDigitsOf(s, radix)
  {
    assert forall c :: DigitValue(LowerChar(c)) == DigitValue(c);
    if s != "" {
      AsciiLowerSlice(s, 0, |s| - 1);
      NumeralValueIgnoresCase(s[..|s| - 1], radix);
    }
  }

  lemma Regroup(a: string, b: string, c: string, d: string)
    ensures a + (b + (c + d)) == a + (b + c) + d
    ensures a + b + c + d == a + b + (c + d)
  {
  }

  // ---- separators ------------------------------------------------------------------

  /** `str::split` on one character: always at least one piece. */
  function Split(s: string, sep: char): (r: seq<string>)
    ensures r != []
  {
    if s == "" then [""]
    else
      var rest := Split(s[1..], sep);
      if s[0] == sep then [""] + rest else [[s[0]] + rest[0]] + rest[1..]
  }

  function Join(parts: seq<string>, sep: char): string
    requires parts != []
  {
    if |parts| == 1 then parts[0] else parts[0] + [sep] + Join(parts[1..], sep)
  }

  predicate AllFree(parts: seq<string>, sep: char) {
    forall i :: 0 <= i < |parts| ==> Free(parts[i], sep)
  }

  lemma {:induction false} SplitOfPiece(s: string, sep: char)
    requires Free(s, sep)
    ensures Split(s, sep) == [s]
  {
    if s != "" {
      SplitOfPiece(s[1..], sep);
      assert [s[0]] + s[1..] == s;
    }
  }

  lemma {:induction false} SplitAtFirst(head: string, tail: string, sep: char)
    requires Free(head, sep)
    ensures Split(head + [sep] + tail, sep) == [head] + Split(tail, sep)
  {
    var s := head + [sep] + tail;
    if head == "" {
      assert s[1..] == tail;
    } else {
      SplitAtFirst(head[1..], tail, sep);
      assert s[1..] == head[1..] + [sep] + tail;
      assert [head[0]] + head[1..] == head;
    }
  }

  lemma Reassociate(x: string, l: seq<string>, r: seq<string>)
    requires l != []
    ensures [x] + (l + r) == ([x] + l) + r
    ensures (l + r)[0] == l[0] && [x] + (l + r)[1..] == ([x] + l[1..]) + r
  {
  }

  /** A separator splits a text into what is before and what is after it. */
  lemma {:induction false} SplitConcat(s: string, t: string, sep: char)
    ensures Split(s + [sep] + t, sep) == Split(s, sep) + Split(t, sep)
  {
    var both := s + [sep] + t;
    if s == "" {
      assert both[1..] == t && both[0] == sep;
    } else {
      assert both[1..] == s[1..] + [sep] + t && both[0] == s[0];
      SplitConcat(s[1..], t, sep);
      var l, r := Split(s[1..], sep), Split(t, sep);
      if s[0] == sep {
        Reassociate("", l, r);
      } else {
        Reassociate([s[0]] + l[0], l, r);
      }
    }
  }

  lemma {:induction false} SplitJoin(parts: seq<string>, sep: char)
    requires parts != [] && AllFree(parts, sep)
    ensures Split(Join(parts, sep), sep) == parts
  {
    if |parts| == 1 {
      SplitOfPiece(parts[0], sep);
    } else {
      SplitJoin(parts[1..], sep);
      SplitAtFirst(parts[0], Join(parts[1..], sep), sep);
    }
  }

  lemma {:induction false} JoinSplit(s: string, sep: char)
    ensures Join(Split(s, sep), sep) == s
    ensures AllFree(Split(s, sep), sep)
  {
    if s != "" {
      var rest := Split(s[1..], sep);
      JoinSplit(s[1..], sep);
      if s[0] == sep {
        assert ([""] + rest)[1..] == rest;
      } else {
        var parts := [[s[0]] + rest[0]] + rest[1..];
        assert parts[1..] == rest[1..];
        if |rest| == 1 {
          assert Join(parts, sep) == [s[0]] + Join(rest, sep);
        } else {
          assert [s[0]] + rest[0] + [sep] + Join(rest[1..], sep) == [s[0]] + (rest[0] + [sep] + Join(rest[1..], sep));
        }
      }
    }
  }

  /** A separator-free piece in front of its separator can be read back off any text. */
  lemma {:induction false} SeparatorCancels(a: string, b: string, ra: string, rb: string, sep: char)
    requires Free(a, sep) && Free(b, sep)
    requires a + [sep] + ra == b + [sep] + rb
    ensures a == b && ra == rb
  {
    var left, right := a + [sep] + ra, b + [sep] + rb;
    assert left[|a|] == sep && right[|b|] == sep;
    assert |a| <= |b| ==> right[..|a|] == b[..|a|];
    assert |b| <= |a| ==> left[..|b|] == a[..|b|];
    assert |a| == |b|;
    assert left[..|a|] == a && right[..|b|] == b;
    assert left[|a| + 1..] == ra && right[|b| + 1..] == rb;
  }
}
