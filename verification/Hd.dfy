/**
 BIP-44 paths as text: the only derivation paths this keystore reads or prints.

 Models the path half of rust-lib/src/hd.rs. `Spells` and `Denotes` say, without running
 the parser, which strings name which path; the parser is proved to accept exactly those.
 */
module Hd {
  import opened Base
  import opened Text

  const PURPOSE: nat := 44
  const COIN_TYPE_ETH: nat := 60
  /** At or above this an index is hardened, so no level may name it. */
  const HARDENED: nat := 0x8000_0000
  const U32_LIMIT: nat := 0x1_0000_0000

  datatype Bip44Path = Bip44Path(account: nat, change: nat, index: nat) {
    predicate Valid() {
      account < HARDENED && change <= 1 && index < HARDENED
    }
  }

  /** One level of a path: its index, and whether it carries the hardened mark. */
  datatype Level = Level(index: nat, hardened: bool)

  function NewPath(account: nat, change: nat, index: nat): (r: Result<Bip44Path>)
    ensures r.Ok? <==> account < 0x8000_0000 && change <= 1 && index < 0x8000_0000
    ensures r.Ok? <==> Bip44Path(account, change, index).Valid()
    ensures r.Ok? ==> r.value == Bip44Path(account, change, index)
  {
    if account >= HARDENED then Err(InvalidParams)
    else if change > 1 then Err(InvalidParams)
    else if index >= HARDENED then Err(InvalidParams)
    else Ok(Bip44Path(account, change, index))
  }

  /** `str::parse::<u32>` on text already known to be ASCII digits. */
  function ParseU32(digits: string): Option<nat> {
    var v := NumeralValue(digits, 10);
    if v < U32_LIMIT then Some(v) else None
  }

  function ParseComponent(seg: string): Result<Level> {
    var quoted := StripSuffix(seg, "'");
    var marked := if quoted.Some? then quoted else StripSuffix(seg, "h");
    var digits := if marked.Some? then marked.value else seg;
    if digits == "" || !AllDigits(digits) then Err(InvalidParams)
    else
      match ParseU32(digits)
      case None => Err(InvalidParams)
      case Some(v) => if v >= HARDENED then Err(InvalidParams) else Ok(Level(v, marked.Some?))
  }

  function ParseComponents(segs: seq<string>): (r: Result<seq<Level>>)
    ensures r.Ok? ==> |r.value| == |segs|
  {
    if segs == [] then Ok([])
    else
      var first :- ParseComponent(segs[0]);
      var rest :- ParseComponents(segs[1..]);
      Ok([first] + rest)
  }

  function SplitPath(s: string, want: nat): (r: Result<seq<Level>>)
    ensures r.Ok? ==> |r.value| == want
  {
    var pieces := Split(s, '/');
    if pieces[0] != "m" then Err(InvalidParams)
    else if |pieces[1..]| != want then Err(InvalidParams)
    else ParseComponents(pieces[1..])
  }

  function ExpectPrefix(c: seq<Level>): Result<()>
    requires |c| >= 3
  {
    if c[0] != Level(PURPOSE, true) || c[1] != Level(COIN_TYPE_ETH, true) then Err(InvalidParams)
    else if !c[2].hardened then Err(InvalidParams)
    else Ok(())
  }

  function Parse(s: string): Result<Bip44Path> {
    var c :- SplitPath(s, 5);
    var _ :- ExpectPrefix(c);
    if c[3].hardened || c[4].hardened then Err(InvalidParams)
    else NewPath(c[2].index, c[3].index, c[4].index)
  }

  function ParseAccountPrefix(s: string): Result<nat> {
    var c :- SplitPath(s, 3);
    var _ :- ExpectPrefix(c);
    Ok(c[2].index)
  }

  function AccountPrefix(account: nat): string {
    "m" + "/" + (Dec(PURPOSE) + "'" + "/" + (Dec(COIN_TYPE_ETH) + "'" + "/" + (Dec(account) + "'")))
  }

  function Print(p: Bip44Path): string {
    "m" + "/" + (Dec(PURPOSE) + "'" + "/" + (Dec(COIN_TYPE_ETH) + "'" + "/" +
      (Dec(p.account) + "'" + "/" + (Dec(p.change) + "/" + Dec(p.index)))))
  }

  // ---- what a string denotes, independently of the parser -----------------------------

  /** `seg` is a plain numeral for the level's index, followed by `'` or `h` iff hardened. */
  ghost predicate Spells(seg: string, level: Level) {
    && level.index < HARDENED
    && exists digits: string, mark: string ::
      && seg == digits + mark
      && digits != "" && AllDigits(digits)
      && NumeralValue(digits, 10) == level.index
      && (if level.hardened then mark == "'" || mark == "h" else mark == "")
  }

  ghost predicate AllSpell(segs: seq<string>, levels: seq<Level>) {
    && |segs| == |levels|
    && AllFree(segs, '/')
    && forall i :: 0 <= i < |segs| ==> Spells(segs[i], levels[i])
  }

  /** `s` is `m` and these levels, separated by `/`. */
  ghost predicate Denotes(s: string, levels: seq<Level>) {
    exists segs: seq<string> :: AllSpell(segs, levels) && s == Join(["m"] + segs, '/')
  }

  function UnderCoin(levels: seq<Level>): seq<Level> {
    [Level(PURPOSE, true)] + ([Level(COIN_TYPE_ETH, true)] + levels)
  }

  function PrefixLevels(account: nat): seq<Level> {
    UnderCoin([Level(account, true)])
  }

  function PathLevels(p: Bip44Path): seq<Level> {
    UnderCoin([Level(p.account, true)] + ([Level(p.change, false)] + [Level(p.index, false)]))
  }

  // ---- the parser accepts exactly what is denoted -------------------------------------

  lemma SpelledIsParsed(seg: string, level: Level)
    requires Spells(seg, level)
    ensures ParseComponent(seg) == Ok(level)
  {
    var digits: string, mark: string :|
      && seg == digits + mark
      && digits != "" && AllDigits(digits)
      && NumeralValue(digits, 10) == level.index
      && (if level.hardened then mark == "'" || mark == "h" else mark == "");
    StripSuffixInverts(seg, mark, digits);
    assert seg[|seg| - 1] == if level.hardened then mark[0] else digits[|digits| - 1];
    if level.hardened {
      if mark == "h" {
        assert StripSuffix(seg, "'").None?;
      }
    } else {
      assert seg == digits;
      assert IsDigit(seg[|seg| - 1]);
      assert StripSuffix(seg, "'").None? && StripSuffix(seg, "h").None?;
    }
  }

  lemma ParsedIsSpelled(seg: string, level: Level)
    requires ParseComponent(seg) == Ok(level)
    ensures Spells(seg, level)
  {
    var quoted, aitch := StripSuffix(seg, "'"), StripSuffix(seg, "h");
    if quoted.Some? {
      StripSuffixInverts(seg, "'", quoted.value);
    } else if aitch.Some? {
      StripSuffixInverts(seg, "h", aitch.value);
    } else {
      assert seg == seg + "";
    }
  }

  lemma ComponentExact(seg: string, level: Level)
    ensures ParseComponent(seg) == Ok(level) <==> Spells(seg, level)
  {
    if Spells(seg, level) {
      SpelledIsParsed(seg, level);
    }
    if ParseComponent(seg) == Ok(level) {
      ParsedIsSpelled(seg, level);
    }
  }

  lemma {:induction false} ComponentsExact(segs: seq<string>, levels: seq<Level>)
    ensures ParseComponents(segs) == Ok(levels) <==>
      |segs| == |levels| && forall i :: 0 <= i < |segs| ==> Spells(segs[i], levels[i])
  {
    if segs != [] && levels != [] {
      ComponentExact(segs[0], levels[0]);
      ComponentsExact(segs[1..], levels[1..]);
      assert levels == [levels[0]] + levels[1..];
      if |segs| == |levels| && forall i :: 0 <= i < |segs| ==> Spells(segs[i], levels[i]) {
        assert forall i :: 0 <= i < |segs[1..]| ==> Spells(segs[1..][i], levels[1..][i]);
      }
      if ParseComponents(segs) == Ok(levels) {
        assert ParseComponents(segs[1..]) == Ok(levels[1..]);
        forall i | 0 <= i < |segs| ensures Spells(segs[i], levels[i]) {
          if i > 0 {
            assert segs[i] == segs[1..][i - 1] && levels[i] == levels[1..][i - 1];
          }
        }
      }
    }
  }

  lemma SplitIsDenoted(s: string, levels: seq<Level>)
    requires SplitPath(s, |levels|) == Ok(levels)
    ensures Denotes(s, levels)
  {
    var segs := Split(s, '/')[1..];
    JoinSplit(s, '/');
    assert Split(s, '/') == ["m"] + segs;
    ComponentsExact(segs, levels);
  }

  lemma DenotedIsSplit(s: string, levels: seq<Level>)
    requires Denotes(s, levels)
    ensures SplitPath(s, |levels|) == Ok(levels)
  {
    var segs: seq<string> :| AllSpell(segs, levels) && s == Join(["m"] + segs, '/');
    SplitJoin(["m"] + segs, '/');
    assert Split(s, '/')[1..] == segs;
    ComponentsExact(segs, levels);
  }

  /** Splitting reads exactly the level lists the string denotes. */
  lemma SplitPathExact(s: string, levels: seq<Level>)
    ensures SplitPath(s, |levels|) == Ok(levels) <==> Denotes(s, levels)
  {
    if Denotes(s, levels) {
      DenotedIsSplit(s, levels);
    } else if SplitPath(s, |levels|) == Ok(levels) {
      SplitIsDenoted(s, levels);
    }
  }

  /**
   The full parser accepts exactly the five-level strings at 44', 60' and a hardened account,
   with change 0 or 1 and every index below 2^31, whichever mark and leading zeros they use.
   */
  lemma ParseAcceptsExactly(s: string, p: Bip44Path)
    ensures Parse(s) == Ok(p) <==> p.Valid() && Denotes(s, PathLevels(p))
  {
    SplitPathExact(s, PathLevels(p));
    var c := SplitPath(s, 5);
    if Parse(s) == Ok(p) {
      assert c.value == PathLevels(p);
    }
  }

  lemma PrefixAcceptsExactly(s: string, account: nat)
    ensures ParseAccountPrefix(s) == Ok(account) <==> Denotes(s, PrefixLevels(account))
  {
    SplitPathExact(s, PrefixLevels(account));
    var c := SplitPath(s, 3);
    if ParseAccountPrefix(s) == Ok(account) {
      assert c.value == PrefixLevels(account);
    }
  }

  // ---- printing ------------------------------------------------------------------------

  lemma NumeralSpells(n: nat)
    requires n < HARDENED
    ensures Spells(Dec(n), Level(n, false)) && Spells(Dec(n) + "'", Level(n, true))
    ensures Free(Dec(n), '/') && Free(Dec(n) + "'", '/')
  {
    DecRoundTrip(n);
    assert Dec(n) == Dec(n) + "";
  }

  /** What follows `m/`: at least one level. */
  ghost predicate Tail(t: string, levels: seq<Level>) {
    exists segs: seq<string> :: AllSpell(segs, levels) && segs != [] && t == Join(segs, '/')
  }

  lemma LastLevel(seg: string, level: Level)
    requires Free(seg, '/') && Spells(seg, level)
    ensures Tail(seg, [level])
  {
    assert AllSpell([seg], [level]) && Join([seg], '/') == seg;
  }

  lemma PrependLevel(seg: string, level: Level, t: string, levels: seq<Level>)
    requires Free(seg, '/') && Spells(seg, level) && Tail(t, levels)
    ensures Tail(seg + "/" + t, [level] + levels)
  {
    var segs :| AllSpell(segs, levels) && segs != [] && t == Join(segs, '/');
    assert ([seg] + segs)[1..] == segs;
    assert AllSpell([seg] + segs, [level] + levels);
  }

  lemma TailDenotes(t: string, levels: seq<Level>)
    requires Tail(t, levels)
    ensures Denotes("m" + "/" + t, levels)
  {
    var segs :| AllSpell(segs, levels) && segs != [] && t == Join(segs, '/');
    assert (["m"] + segs)[1..] == segs;
  }

  /** `m/44'/60'/` in front of the levels below the coin. */
  lemma CoinPrefix(rest: string, levels: seq<Level>)
    requires Tail(rest, levels)
    ensures Denotes("m" + "/" + (Dec(PURPOSE) + "'" + "/" + (Dec(COIN_TYPE_ETH) + "'" + "/" + rest)),
                    UnderCoin(levels))
  {
    NumeralSpells(PURPOSE);
    NumeralSpells(COIN_TYPE_ETH);
    var purpose, coin := Dec(PURPOSE) + "'", Dec(COIN_TYPE_ETH) + "'";
    PrependLevel(coin, Level(COIN_TYPE_ETH, true), rest, levels);
    PrependLevel(purpose, Level(PURPOSE, true), coin + "/" + rest, [Level(COIN_TYPE_ETH, true)] + levels);
    TailDenotes(purpose + "/" + (coin + "/" + rest), [Level(PURPOSE, true)] + ([Level(COIN_TYPE_ETH, true)] + levels));
  }

  lemma PrintDenotes(p: Bip44Path)
    requires p.Valid()
    ensures Denotes(Print(p), PathLevels(p))
  {
    NumeralSpells(p.account);
    NumeralSpells(p.change);
    NumeralSpells(p.index);
    var account, change, index := Level(p.account, true), Level(p.change, false), Level(p.index, false);
    LastLevel(Dec(p.index), index);
    PrependLevel(Dec(p.change), change, Dec(p.index), [index]);
    var below := Dec(p.change) + "/" + Dec(p.index);
    PrependLevel(Dec(p.account) + "'", account, below, [change] + [index]);
    var rest, levels := Dec(p.account) + "'" + "/" + below, [account] + ([change] + [index]);
    CoinPrefix(rest, levels);
  }

  lemma PrefixDenotes(account: nat)
    requires account < HARDENED
    ensures Denotes(AccountPrefix(account), PrefixLevels(account))
  {
    NumeralSpells(account);
    LastLevel(Dec(account) + "'", Level(account, true));
    CoinPrefix(Dec(account) + "'", [Level(account, true)]);
  }

  /** Every valid path is read back from what is printed for it, so printing is injective. */
  lemma PathRoundTrip(p: Bip44Path)
    requires p.Valid()
    ensures Parse(Print(p)) == Ok(p)
  {
    PrintDenotes(p);
    ParseAcceptsExactly(Print(p), p);
  }

  /** Whatever spelling was accepted, reprinting it names the same path. */
  lemma ReprintKeepsThePath(s: string)
    requires Parse(s).Ok?
    ensures Parse(s).value.Valid()
    ensures Parse(Print(Parse(s).value)) == Parse(s)
  {
    ParseAcceptsExactly(s, Parse(s).value);
    PathRoundTrip(Parse(s).value);
  }

  lemma PrefixRoundTrip(account: nat)
    requires account < HARDENED
    ensures ParseAccountPrefix(AccountPrefix(account)) == Ok(account)
  {
    PrefixDenotes(account);
    PrefixAcceptsExactly(AccountPrefix(account), account);
  }
}
