/** The base-27 ticker id codec. */
module TickerId {
  const OFFSET := 2048   // 1 << 11
  const MID := 1024      // 1 << 10
  const SCALE := [1, 27, 27 * 27, 27 * 27 * 27]
  const INT_LIMIT := 0x8000_0000

  function Upper(c: char): char {
    if 'a' <= c <= 'z' then (c as int - 32) as char else c
  }

  function UpperAll(s: string): (u: string)
    ensures |u| == |s| && forall i :: 0 <= i < |s| ==> u[i] == Upper(s[i])
  {
    seq(|s|, i requires 0 <= i < |s| => Upper(s[i]))
  }

  predicate IsLetter(c: char) {
    'a' <= c <= 'z' || 'A' <= c <= 'Z'
  }

  /** The digit of a character: A or a is 1, Z or z is 26. */
  function DigitOf(c: char): int {
    Upper(c) as int - 'A' as int + 1
  }

  function DigitsOfText(s: string): (ds: seq<int>)
    ensures |ds| == |s| && forall i :: 0 <= i < |s| ==> ds[i] == DigitOf(s[i])
  {
    seq(|s|, i requires 0 <= i < |s| => DigitOf(s[i]))
  }

  // ---------------------------------------------------------------- positional notation

  /** The number a digit sequence denotes, most significant first. */
  function Base27(ds: seq<int>): int {
    if ds == [] then 0 else 27 * Base27(ds[..|ds| - 1]) + ds[|ds| - 1]
  }

  /** The `n` base-27 digits of `m`; the first takes whatever is left over. */
  function Digits27(m: nat, n: nat): (ds: seq<int>)
    ensures |ds| == n
  {
    if n == 0 then [] else if n == 1 then [m] else Digits27(m / 27, n - 1) + [m % 27]
  }

  ghost predicate AreDigits(ds: seq<int>) {
    forall i :: 0 <= i < |ds| ==> 0 <= ds[i] < 27
  }

  function Zeros(n: nat): (z: seq<int>)
    ensures |z| == n && forall i :: 0 <= i < n ==> z[i] == 0
  {
    seq(n, _ => 0)
  }

  lemma {:induction false} Base27IsNat(ds: seq<int>)
    requires AreDigits(ds)
    ensures Base27(ds) >= 0
  {
    if ds != [] {
      Base27IsNat(ds[..|ds| - 1]);
    }
  }

  /** Digit sequences of any length are recovered, with leading zeros for longer readings. */
  lemma {:induction false} DigitsUndoBase27(ds: seq<int>, n: nat)
    requires AreDigits(ds) && |ds| <= n
    ensures Base27(ds) >= 0
    ensures Digits27(Base27(ds), n) == Zeros(n - |ds|) + ds
    decreases n
  {
    Base27IsNat(ds);
    if n >= 2 {
      var init, last := if ds == [] then [] else ds[..|ds| - 1], if ds == [] then 0 else ds[|ds| - 1];
      Base27IsNat(init);
      assert Base27(ds) == 27 * Base27(init) + last && 0 <= last < 27;
      assert Base27(ds) / 27 == Base27(init) && Base27(ds) % 27 == last;
      DigitsUndoBase27(init, n - 1);
      if ds != [] {
        assert ds == init + [last];
        assert Zeros(n - 1 - |init|) + init + [last] == Zeros(n - |ds|) + ds;
      } else {
        assert Zeros(n - 1) + [] + [0] == Zeros(n) + [];
      }
    } else if n == 1 && ds != [] {
      assert ds[..0] == [] && Base27([]) == 0;
    }
  }

  /** Numbers of up to four digits fit the space the codec has. */
  lemma FourDigitsBound(ds: seq<int>)
    requires AreDigits(ds) && |ds| <= 4
    ensures 0 <= Base27(ds) <= 531440
  {
    Base27IsNat(ds);
    var d3, d2, d1 := ds[..if |ds| < 1 then 0 else |ds| - 1], ds[..if |ds| < 2 then 0 else |ds| - 2], ds[..if |ds| < 3 then 0 else |ds| - 3];
    assert Base27(d1) <= 26 by {
      if d1 != [] {
        assert d1[..0] == [] && Base27([]) == 0;
      }
    }
    assert Base27(d2) <= 728 by {
      if d2 != [] {
        assert d2[..|d2| - 1] == d1;
      }
    }
    assert Base27(d3) <= 19682 by {
      if d3 != [] {
        assert d3[..|d3| - 1] == d2;
      }
    }
  }

  lemma TwoDigitReading(m: nat)
    ensures Digits27(m, 2) == [m / 27, m % 27]
  {
    assert Digits27(m / 27, 1) == [m / 27];
  }

  lemma ThreeDigitReading(m: nat)
    ensures Digits27(m, 3) == [m / 729, m / 27 % 27, m % 27]
  {
    TwoDigitReading(m / 27);
    assert m / 27 / 27 == m / 729;
  }

  lemma Quotient27(u: int, a: int)
    requires 0 <= a < 27
    ensures (27 * u + a) / 27 == u && (27 * u + a) % 27 == a
  {
  }

  lemma Mod729(m: nat)
    ensures m % 729 == 27 * (m / 27 % 27) + m % 27
  {
    var x := m / 27;
    assert m == 729 * (x / 27) + (27 * (x % 27) + m % 27);
  }

  lemma Mod19683(m: nat)
    ensures m % 19683 == 27 * (m / 27 % 729) + m % 27
  {
    var x := m / 27;
    assert m == 19683 * (x / 729) + (27 * (x % 729) + m % 27);
  }

  /** C's division and remainder, which truncate toward zero. */
  function TruncDiv(a: int, b: int): int
    requires b > 0
  {
    if a >= 0 then a / b else -((-a) / b)
  }

  function TruncMod(a: int, b: int): int
    requires b > 0
  {
    if a >= 0 then a % b else -((-a) % b)
  }

  /** Quotient and remainder by the i-th scale. */
  function Lead(m: int, i: nat): int
    requires i < 4
  {
    if i == 0 then m else if i == 1 then TruncDiv(m, 27) else if i == 2 then TruncDiv(m, 729) else TruncDiv(m, 19683)
  }

  function Rest(m: int, i: nat): (r: int)
    requires i < 4
    ensures m >= 0 ==> r >= 0
    ensures m <= 0 ==> r <= 0
  {
    if i == 0 then 0 else if i == 1 then TruncMod(m, 27) else if i == 2 then TruncMod(m, 729) else TruncMod(m, 19683)
  }

  lemma ScaledBy(m: int, i: nat)
    requires i < 4
    ensures TruncDiv(m, SCALE[i]) == Lead(m, i) && TruncMod(m, SCALE[i]) == Rest(m, i)
  {
    assert SCALE[i] == if i == 0 then 1 else if i == 1 then 27 else if i == 2 then 729 else 19683;
  }

  /** The leading digit of a reading, and the rest of it. */
  lemma LeadingDigit(m: nat, i: nat)
    requires i < 4
    ensures Digits27(m, i + 1) == [Lead(m, i)] + Digits27(Rest(m, i), i)
    decreases i, 1
  {
    if i == 1 {
      TwoDigitReading(m);
    } else if i == 2 {
      ThreeDigitReading(m);
      TwoDigitReading(m % 729);
      Mod729(m);
      Quotient27(m / 27 % 27, m % 27);
    } else if i == 3 {
      LeadingOfFour(m);
    }
  }

  lemma LeadingOfFour(m: nat)
    ensures Digits27(m, 4) == [m / 19683] + Digits27(m % 19683, 3)
    decreases 3, 0
  {
    var x, r := m / 27, m % 19683;
    LeadingDigit(x, 2);
    Mod19683(m);
    Quotient27(x % 729, m % 27);
    assert Digits27(m, 4) == Digits27(x, 3) + [m % 27];
    assert Digits27(r, 3) == Digits27(r / 27, 2) + [r % 27];
    assert x / 729 == m / 19683;
  }

  // ---------------------------------------------------------------- the codec

  /** The id of a stock symbol. */
  function StockId(s: string): int {
    Base27(DigitsOfText(s)) * OFFSET
  }

  /** A digit's letter, converted to an 8-bit char. */
  function LetterOf(d: int): char {
    ((d + 'A' as int - 1) % 256) as char
  }

  /** The letters of the positive digits. */
  function LettersOf(ds: seq<int>): string {
    if ds == [] then [] else (if ds[0] > 0 then [LetterOf(ds[0])] else []) + LettersOf(ds[1..])
  }

  /** The symbol of an id: four digits of the id without its low bits; a negative id has none. */
  function SymbolOf(code: int): string {
    if code < 0 then "" else LettersOf(Digits27(code / OFFSET, 4))
  }

  /** The weight of what has been read when `left` digits are still to come. */
  function Weight(left: nat): int
    requires left <= 4
  {
    if left == 4 then 27 * 27 * 27 * 27 else SCALE[left]
  }

  lemma NextWeight(b: int, d: int, left: nat)
    requires 1 <= left <= 4
    ensures b * Weight(left) + d * SCALE[left - 1] == (27 * b + d) * Weight(left - 1)
  {
  }

  /** `SymbolToTickerId(s)`. The scale table has four entries. */
  method SymbolToTickerId(s: string) returns (id: int)
    requires |s| <= 4
    ensures id == StockId(s)
  {
    var v, len := 0, |s|;
    ghost var ds := DigitsOfText(s);
    for i := 0 to len
      invariant v == Base27(ds[..i]) * Weight(len - i)
    {
      assert ds[..i + 1][..i] == ds[..i];
      NextWeight(Base27(ds[..i]), DigitOf(s[i]), len - i);
      v := v + DigitOf(s[i]) * SCALE[len - (i + 1)];
    }
    assert ds[..len] == ds;
    id := v * OFFSET;
  }

  /** The letter of a leading digit, if it has one. */
  function LetterIf(d: int): string {
    if d > 0 then [LetterOf(d)] else ""
  }

  /** What the decoding loop appends from `m` with `n` turns to go. */
  function TurnLetters(m: int, n: nat): string
    requires n <= 4
    decreases n
  {
    if n == 0 then "" else LetterIf(Lead(m, n - 1)) + TurnLetters(Rest(m, n - 1), n - 1)
  }

  lemma NextLetter(m: nat, i: nat)
    requires i < 4
    ensures LettersOf(Digits27(m, i + 1)) == LetterIf(Lead(m, i)) + LettersOf(Digits27(Rest(m, i), i))
  {
    LeadingDigit(m, i);
    assert ([Lead(m, i)] + Digits27(Rest(m, i), i))[1..] == Digits27(Rest(m, i), i);
  }

  lemma {:induction false} TurnsGiveLetters(m: nat, n: nat)
    requires n <= 4
    ensures TurnLetters(m, n) == LettersOf(Digits27(m, n))
    decreases n
  {
    if n > 0 {
      NextLetter(m, n - 1);
      TurnsGiveLetters(Rest(m, n - 1), n - 1);
    }
  }

  lemma {:induction false} NegativeHasNoLetters(m: int, n: nat)
    requires n <= 4 && m <= 0
    ensures TurnLetters(m, n) == ""
    decreases n
  {
    if n > 0 {
      NegativeHasNoLetters(Rest(m, n - 1), n - 1);
    }
  }

  /** `SymbolFromTickerId`. */
  method SymbolFromTickerId(code: int) returns (symbol: string)
    ensures symbol == SymbolOf(code)
  {
    var m := code / OFFSET;   // an arithmetic shift rounds down
    if m >= 0 {
      TurnsGiveLetters(m, 4);
    } else {
      NegativeHasNoLetters(m, 4);
    }
    symbol := ReadLetters(m);
  }

  /** The decoding loop: divide by the scale, keep the remainder, emit a letter for a positive digit. */
  method ReadLetters(start: int) returns (symbol: string)
    ensures symbol == TurnLetters(start, 4)
  {
    symbol := "";
    var m := start;
    for i := 4 downto 0
      invariant symbol + TurnLetters(m, i) == TurnLetters(start, 4)
    {
      ghost var before, was := symbol, m;
      var c;
      c, m := DivideByScale(m, i);
      if c > 0 {
        symbol := symbol + [LetterOf(c)];
      }
      assert symbol == before + LetterIf(c);
      TurnJoins(before, was, i, c, m);
    }
  }

  /** Quotient and remainder by an entry of the scale table. */
  method DivideByScale(m: int, i: nat) returns (c: int, rest: int)
    requires i < 4
    ensures c == Lead(m, i) && rest == Rest(m, i)
  {
    ScaledBy(m, i);
    c, rest := TruncDiv(m, SCALE[i]), TruncMod(m, SCALE[i]);
  }

  lemma TurnJoins(symbol: string, m: int, i: nat, c: int, rest: int)
    requires i < 4 && c == Lead(m, i) && rest == Rest(m, i)
    ensures symbol + TurnLetters(m, i + 1) == symbol + LetterIf(c) + TurnLetters(rest, i)
  {
    assert TurnLetters(m, i + 1) == LetterIf(c) + TurnLetters(rest, i);
  }

  ghost predicate AllLetters(s: string) {
    forall i :: 0 <= i < |s| ==> IsLetter(s[i])
  }

  lemma {:induction false} ZerosHaveNoLetters(n: nat, ds: seq<int>)
    ensures LettersOf(Zeros(n) + ds) == LettersOf(ds)
  {
    if n == 0 {
      assert Zeros(0) + ds == ds;
    } else {
      assert (Zeros(n) + ds)[1..] == Zeros(n - 1) + ds;
      ZerosHaveNoLetters(n - 1, ds);
    }
  }

  lemma LetterIsUpper(c: char)
    requires IsLetter(c)
    ensures 1 <= DigitOf(c) <= 26 && LetterOf(DigitOf(c)) == Upper(c)
  {
  }

  lemma {:induction false} LettersOfText(s: string)
    requires AllLetters(s)
    ensures LettersOf(DigitsOfText(s)) == UpperAll(s)
  {
    if s != [] {
      LettersOfText(s[1..]);
      LetterIsUpper(s[0]);
      assert DigitsOfText(s)[1..] == DigitsOfText(s[1..]);
      assert UpperAll(s) == [Upper(s[0])] + UpperAll(s[1..]);
    }
  }

  lemma TextDigits(s: string)
    requires AllLetters(s)
    ensures AreDigits(DigitsOfText(s))
  {
    forall i | 0 <= i < |s| ensures 0 <= DigitOf(s[i]) < 27 {
      LetterIsUpper(s[i]);
    }
  }

  lemma StockIdFits(s: string)
    requires AllLetters(s) && |s| <= 4
    ensures 0 <= StockId(s) <= 531440 * OFFSET < INT_LIMIT && StockId(s) % OFFSET == 0
    ensures StockId(s) / OFFSET == Base27(DigitsOfText(s))
  {
    TextDigits(s);
    FourDigitsBound(DigitsOfText(s));
  }

  /** Decoding an encoded symbol gives its upper case, and the id fits an int. */
  lemma StockRoundTrip(s: string)
    requires AllLetters(s) && |s| <= 4
    ensures 0 <= StockId(s) <= 531440 * OFFSET < INT_LIMIT && StockId(s) % OFFSET == 0
    ensures SymbolOf(StockId(s)) == UpperAll(s)
  {
    var ds := DigitsOfText(s);
    StockIdFits(s);
    TextDigits(s);
    DigitsUndoBase27(ds, 4);
    ZerosHaveNoLetters(4 - |ds|, ds);
    LettersOfText(s);
  }

  // ---------------------------------------------------------------- options

  datatype EncodedOption = EncodedOption(symbol: string, isCall: bool, strike: real)

  /** Conversion of a double to int truncates toward zero. */
  function Truncate(x: real): int {
    if x >= 0.0 then x.Floor else -((-x).Floor)
  }

  /** `SymbolToTickerId(s, isCall, strike)`. */
  function OptionId(s: string, isCall: bool, strike: real): int {
    Truncate((StockId(s) + MID) as real + (if isCall then strike else -strike))
  }

  /** `EncodedOptionFromTickerId`. */
  function OptionOf(code: int): EncodedOption {
    var base := code / OFFSET * OFFSET;
    var opt := code - base - MID;
    EncodedOption(SymbolOf(base), opt > 0, (if opt > 0 then opt else -opt) as real)
  }

  /** `IsTickerIdForOption`, on the id converted to unsigned. */
  predicate IsForOption(id: int) {
    id % OFFSET != 0
  }

  /** Strikes whose option id reads back: whole, and within the half of the low bits its side has. */
  predicate Encodable(isCall: bool, strike: real) {
    strike == strike.Floor as real && if isCall then 1.0 <= strike <= 1023.0 else 0.0 <= strike <= 1024.0
  }

  lemma SplitLowBits(v: int, r: int)
    requires 0 <= r < 2048
    ensures (v * 2048 + r) / 2048 == v && (v * 2048 + r) % 2048 == r
  {
  }

  /** The low bits of an id around a stock id. */
  lemma LowBits(s: string, offset: int)
    requires 0 <= MID + offset < OFFSET
    ensures (StockId(s) + MID + offset) / OFFSET * OFFSET == StockId(s)
    ensures (StockId(s) + MID + offset) % OFFSET == MID + offset
  {
    SplitLowBits(Base27(DigitsOfText(s)), MID + offset);
  }

  lemma WholeOptionId(s: string, isCall: bool, k: nat)
    requires AllLetters(s) && |s| <= 4 && k <= MID
    ensures OptionId(s, isCall, k as real) == StockId(s) + MID + if isCall then k else 0 - k
  {
    StockRoundTrip(s);
    var whole := StockId(s) + MID + if isCall then k else 0 - k;
    assert (StockId(s) + MID) as real + (if isCall then k as real else -(k as real)) == whole as real;
    assert (whole as real).Floor == whole;
  }

  /** Decoding an option id returns symbol, side and strike exactly for the encodable strikes. */
  lemma OptionRoundTrip(s: string, isCall: bool, strike: real)
    requires AllLetters(s) && |s| <= 4 && strike >= 0.0
    ensures OptionOf(OptionId(s, isCall, strike)) == EncodedOption(UpperAll(s), isCall, strike) <==> Encodable(isCall, strike)
  {
    StockRoundTrip(s);
    var k := strike.Floor;
    if strike == k as real && k <= MID {
      WholeOptionId(s, isCall, k);
      if isCall && k == MID {
        NextBlock(s);
      } else {
        LowBits(s, if isCall then k else -k);
      }
    } else {
      DecodedStrikeIsSmall(OptionId(s, isCall, strike));
    }
  }

  /** A decoded strike is whole and at most 1024. */
  lemma DecodedStrikeIsSmall(code: int)
    ensures OptionOf(code).strike == OptionOf(code).strike.Floor as real && OptionOf(code).strike <= 1024.0
  {
  }

  lemma NextBlock(s: string)
    ensures !OptionOf(StockId(s) + MID + MID).isCall
  {
    SplitLowBits(Base27(DigitsOfText(s)) + 1, 0);
  }

  /** With a strike from 1 to 1023, an option id fits an int, is told apart from every stock id, and
      reads back. */
  lemma OptionIdsAreApart(s: string, isCall: bool, k: nat, other: string)
    requires AllLetters(s) && |s| <= 4 && 1 <= k <= 1023 && AllLetters(other) && |other| <= 4
    ensures 0 <= OptionId(s, isCall, k as real) < INT_LIMIT
    ensures IsForOption(OptionId(s, isCall, k as real)) && !IsForOption(StockId(other))
    ensures OptionId(s, isCall, k as real) != StockId(other)
    ensures OptionOf(OptionId(s, isCall, k as real)) == EncodedOption(UpperAll(s), isCall, k as real)
  {
    StockRoundTrip(s);
    StockRoundTrip(other);
    WholeOptionId(s, isCall, k);
    LowBits(s, if isCall then k else 0 - k);
    assert (k as real).Floor == k;
    OptionRoundTrip(s, isCall, k as real);
  }

  /** A put at 1024 has the id of its stock. */
  lemma PutAt1024IsStock(s: string)
    requires AllLetters(s) && |s| <= 4
    ensures OptionId(s, false, 1024.0) == StockId(s)
  {
    WholeOptionId(s, false, 1024);
  }
}
