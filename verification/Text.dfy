/** Strings as the program uses them: decimal printing, std::string ordering, splitting. */
module Text {

  datatype Option<T> = None | Some(value: T)

  // ---------------------------------------------------------------- decimals

  predicate IsDigit(c: char) {
    '0' <= c <= '9'
  }

  function Digit(d: int): (c: char)
    requires 0 <= d < 10
    ensures IsDigit(c) && c as int - '0' as int == d
  {
    ('0' as int + d) as char
  }

  /** How an unsigned number is printed. */
  function Decimal(n: nat): (s: string)
    ensures |s| >= 1 && forall i :: 0 <= i < |s| ==> IsDigit(s[i])
  {
    if n < 10 then [Digit(n)] else Decimal(n / 10) + [Digit(n % 10)]
  }

  /** The number a string of digits denotes. */
  function ParseDigits(s: string): Option<nat> {
    if s == [] then None
    else if !IsDigit(s[|s| - 1]) then None
    else
      var d := s[|s| - 1] as int - '0' as int;
      if |s| == 1 then Some(d) else
        match ParseDigits(s[..|s| - 1])
        case None => None
        case Some(n) => Some(10 * n + d)
  }

  lemma {:induction false} ParseUndoesDecimal(n: nat)
    ensures ParseDigits(Decimal(n)) == Some(n)
  {
    if n >= 10 {
      ParseUndoesDecimal(n / 10);
      var s := Decimal(n);
      assert s[..|s| - 1] == Decimal(n / 10);
    }
  }

  lemma DecimalInjective(m: nat, n: nat)
    requires Decimal(m) == Decimal(n)
    ensures m == n
  {
    ParseUndoesDecimal(m);
    ParseUndoesDecimal(n);
  }

  /** boost::lexical_cast to an unsigned type of `modulus` values: a sign is accepted, and a
      negated number wraps around. */
  function CastUnsigned(s: string, modulus: nat): Option<nat>
    requires modulus > 0
  {
    var negative := s != [] && s[0] == '-';
    var digits := if s != [] && (s[0] == '-' || s[0] == '+') then s[1..] else s;
    match ParseDigits(digits)
    case None => None
    case Some(n) => if n >= modulus then None else Some(if negative then (modulus - n) % modulus else n)
  }

  /** boost::lexical_cast to a signed type holding -limit .. limit - 1. */
  function CastSigned(s: string, limit: nat): Option<int> {
    var negative := s != [] && s[0] == '-';
    var digits := if s != [] && (s[0] == '-' || s[0] == '+') then s[1..] else s;
    match ParseDigits(digits)
    case None => None
    case Some(n) =>
      if negative then (if n <= limit then Some(-(n as int)) else None)
      else if n < limit then Some(n) else None
  }

  /** boost::lexical_cast<int>. */
  function CastInt(s: string): Option<int> {
    CastSigned(s, 0x8000_0000)
  }

  lemma CastUndoesDecimal(n: nat, modulus: nat)
    requires modulus > 0
    ensures CastUnsigned(Decimal(n), modulus) == if n < modulus then Some(n) else None
    ensures CastInt(Decimal(n)) == if n < 0x8000_0000 then Some(n) else None
  {
    ParseUndoesDecimal(n);
    assert IsDigit(Decimal(n)[0]);
  }

  // ---------------------------------------------------------------- order

  /** std::string's `<` (and the store's byte order). */
  predicate Less(a: string, b: string) {
    b != [] && (a == [] || a[0] < b[0] || (a[0] == b[0] && Less(a[1..], b[1..])))
  }

  predicate HasPrefix(s: string, p: string) {
    |p| <= |s| && s[..|p|] == p
  }

  lemma {:induction false} LessIsIrreflexive(a: string)
    ensures !Less(a, a)
  {
    if a != [] {
      LessIsIrreflexive(a[1..]);
    }
  }

  lemma {:induction false} LessIsTotal(a: string, b: string)
    ensures Less(a, b) || a == b || Less(b, a)
  {
    if a != [] && b != [] && a[0] == b[0] {
      LessIsTotal(a[1..], b[1..]);
      assert a == [a[0]] + a[1..] && b == [b[0]] + b[1..];
    }
  }

  lemma {:induction false} LessIsTransitive(a: string, b: string, c: string)
    requires Less(a, b) && Less(b, c)
    ensures Less(a, c)
  {
    if a != [] && a[0] == b[0] == c[0] {
      LessIsTransitive(a[1..], b[1..], c[1..]);
    }
  }

  /** A common prefix does not take part in a comparison. */
  lemma {:induction false} LessAfterPrefix(p: string, a: string, b: string)
    ensures Less(p + a, p + b) <==> Less(a, b)
  {
    if p == [] {
      assert p + a == a && p + b == b;
    } else {
      assert (p + a)[1..] == p[1..] + a && (p + b)[1..] == p[1..] + b;
      LessAfterPrefix(p[1..], a, b);
    }
  }

  /** A string between two strings with a common prefix has that prefix. */
  lemma {:induction false} BetweenSharesPrefix(p: string, a: string, b: string, k: string)
    requires !Less(k, p + a) && Less(k, p + b)
    ensures HasPrefix(k, p)
  {
    if p != [] {
      assert (p + a)[1..] == p[1..] + a && (p + b)[1..] == p[1..] + b;
      assert k != [] && k[0] == p[0];
      BetweenSharesPrefix(p[1..], a, b, k[1..]);
      assert k[..|p|] == [k[0]] + k[1..][..|p| - 1];
    }
  }

  lemma {:induction false} LessSnoc(a: string, x: char, b: string, y: char)
    requires |a| == |b|
    ensures Less(a + [x], b + [y]) <==> Less(a, b) || (a == b && x < y)
  {
    if a != [] {
      assert (a + [x])[1..] == a[1..] + [x] && (b + [y])[1..] == b[1..] + [y];
      LessSnoc(a[1..], x, b[1..], y);
      assert a == [a[0]] + a[1..] && b == [b[0]] + b[1..];
    }
  }

  /** Something longer compares with an equally long string as its prefix does. */
  lemma {:induction false} LessIgnoresTail(a: string, tail: string, b: string)
    requires |a| == |b|
    ensures Less(a + tail, b) <==> Less(a, b)
  {
    if a != [] {
      assert (a + tail)[1..] == a[1..] + tail;
      LessIgnoresTail(a[1..], tail, b[1..]);
    }
  }

  /** Decimals of equal length compare as numbers. */
  lemma {:induction false} DecimalOrder(m: nat, n: nat)
    requires |Decimal(m)| == |Decimal(n)|
    ensures Less(Decimal(m), Decimal(n)) <==> m < n
  {
    if m >= 10 && n >= 10 {
      DecimalOrder(m / 10, n / 10);
      LessSnoc(Decimal(m / 10), Digit(m % 10), Decimal(n / 10), Digit(n % 10));
      if Decimal(m / 10) == Decimal(n / 10) {
        DecimalInjective(m / 10, n / 10);
      }
    } else {
      LongDecimal(m);
      LongDecimal(n);
    }
  }

  lemma LongDecimal(n: nat)
    ensures |Decimal(n)| == 1 <==> n < 10
  {
  }

  function Pow10(k: nat): (p: nat)
    ensures p > 0
  {
    if k == 0 then 1 else 10 * Pow10(k - 1)
  }

  /** The number without its last `k` digits. */
  function DropDigits(n: nat, k: nat): nat {
    if k == 0 then n else DropDigits(n / 10, k - 1)
  }

  lemma {:induction false} DecimalPrefix(n: nat, k: nat)
    requires k < |Decimal(n)|
    ensures Decimal(n)[..|Decimal(n)| - k] == Decimal(DropDigits(n, k))
    decreases k
  {
    if k > 0 {
      LongDecimal(n);
      var shorter := Decimal(n / 10);
      assert Decimal(n)[..|Decimal(n)| - k] == shorter[..|shorter| - (k - 1)];
      DecimalPrefix(n / 10, k - 1);
    }
  }

  lemma {:induction false} DropDigitsBelow(m: nat, k: nat, n: nat)
    ensures DropDigits(m, k) < n <==> m < n * Pow10(k)
    decreases k
  {
    if k > 0 {
      DropDigitsBelow(m / 10, k - 1, n);
      TenTimes(n, Pow10(k - 1));
      TenthBelow(m, n * Pow10(k - 1));
    }
  }

  lemma TenTimes(n: nat, p: nat)
    ensures n * (10 * p) == 10 * (n * p)
  {
  }

  lemma TenthBelow(m: nat, p: nat)
    ensures m / 10 < p <==> m < 10 * p
  {
  }

  /** Whether the text of `m`, followed by a ':' and more if `tail`, comes before the text of `n`: the
      shorter of the two is scaled to the other's number of digits. */
  predicate Before(m: nat, n: nat, tail: bool) {
    var lm, ln := |Decimal(m)|, |Decimal(n)|;
    if lm >= ln then m < n * Pow10(lm - ln)
    else (if tail then m + 1 else m) * Pow10(ln - lm) <= n
  }

  lemma {:induction false} LessByParts(a: string, x: string, b: string, y: string)
    requires |a| == |b|
    ensures Less(a + x, b + y) <==> Less(a, b) || (a == b && Less(x, y))
  {
    if a == [] {
      assert a + x == x && b + y == y;
    } else {
      assert (a + x)[1..] == a[1..] + x && (b + y)[1..] == b[1..] + y;
      LessByParts(a[1..], x, b[1..], y);
      assert a == [a[0]] + a[1..] && b == [b[0]] + b[1..];
    }
  }

  lemma LongerBefore(m: nat, rest: string, n: nat, k: nat)
    requires |Decimal(m)| == |Decimal(n)| + k
    ensures Less(Decimal(m) + rest, Decimal(n)) <==> DropDigits(m, k) < n
  {
    var a := Decimal(m);
    DecimalPrefix(m, k);
    var head, tail := a[..|a| - k], a[|a| - k..];
    assert a + rest == head + (tail + rest);
    LessIgnoresTail(head, tail + rest, Decimal(n));
    DecimalOrder(DropDigits(m, k), n);
  }

  lemma ShorterBefore(m: nat, rest: string, n: nat, k: nat)
    requires |Decimal(m)| + k == |Decimal(n)| && k > 0
    requires rest == [] || rest[0] == ':'
    ensures Less(Decimal(m) + rest, Decimal(n)) <==> !(DropDigits(n, k) < if rest == [] then m else m + 1)
  {
    var b := Decimal(n);
    DecimalPrefix(n, k);
    var head, tail := b[..|b| - k], b[|b| - k..];
    assert b == head + tail && IsDigit(tail[0]);
    LessByParts(Decimal(m), rest, head, tail);
    DecimalOrder(m, DropDigits(n, k));
    if Decimal(m) == head {
      DecimalInjective(m, DropDigits(n, k));
    }
  }

  /** Decimals of any lengths compare as numbers after scaling. */
  lemma DecimalsCompareScaled(m: nat, rest: string, n: nat)
    requires rest == [] || rest[0] == ':'
    ensures Less(Decimal(m) + rest, Decimal(n)) <==> Before(m, n, rest != [])
  {
    if |Decimal(m)| >= |Decimal(n)| {
      var k := |Decimal(m)| - |Decimal(n)|;
      LongerBefore(m, rest, n, k);
      DropDigitsBelow(m, k, n);
    } else {
      var k := |Decimal(n)| - |Decimal(m)|;
      ShorterBefore(m, rest, n, k);
      DropDigitsBelow(n, k, if rest == [] then m else m + 1);
    }
  }

  // ---------------------------------------------------------------- splitting

  /** Index of the first `c`, or -1. */
  function Find(s: string, c: char): (i: int)
    ensures -1 <= i < |s|
    ensures i >= 0 ==> s[i] == c && c !in s[..i]
    ensures i < 0 <==> c !in s
  {
    if s == [] then -1
    else if s[0] == c then 0
    else
      var i := Find(s[1..], c);
      assert s == [s[0]] + s[1..];
      if i < 0 then -1 else
        assert s[..i + 1] == [s[0]] + s[1..][..i];
        i + 1
  }

  /** boost::split by one delimiter: always at least one part. */
  function Split(s: string, d: char): (parts: seq<string>)
    ensures |parts| >= 1
  {
    var i := Find(s, d);
    if i < 0 then [s] else [s[..i]] + Split(s[i + 1..], d)
  }

  function Join(parts: seq<string>, d: char): string
    requires |parts| >= 1
  {
    if |parts| == 1 then parts[0] else parts[0] + [d] + Join(parts[1..], d)
  }

  lemma FindAfter(a: string, c: char, b: string)
    requires c !in a
    ensures Find(a + [c] + b, c) == |a|
    ensures (a + [c] + b)[..|a|] == a && (a + [c] + b)[|a| + 1..] == b
  {
    var s := a + [c] + b;
    var i := Find(s, c);
    assert s[|a|] == c;
    assert forall j :: 0 <= j < |a| ==> s[j] == a[j];
    assert forall j :: 0 <= j < i ==> s[j] == s[..i][j];
  }

  lemma SplitStep(a: string, d: char, b: string)
    requires d !in a
    ensures Split(a + [d] + b, d) == [a] + Split(b, d)
  {
    FindAfter(a, d, b);
  }

  lemma {:induction false} SplitUndoesJoin(parts: seq<string>, d: char)
    requires |parts| >= 1 && forall i :: 0 <= i < |parts| ==> d !in parts[i]
    ensures Split(Join(parts, d), d) == parts
  {
    if |parts| > 1 {
      SplitStep(parts[0], d, Join(parts[1..], d));
      SplitUndoesJoin(parts[1..], d);
      assert parts == [parts[0]] + parts[1..];
    }
  }

  /** Text up to a delimiter is determined by the whole. */
  lemma FieldIsUnique(a: string, b: string, a': string, b': string, d: char)
    requires a + [d] + b == a' + [d] + b' && d !in a && d !in a'
    ensures a == a' && b == b'
  {
    FindAfter(a, d, b);
    FindAfter(a', d, b');
  }
}
