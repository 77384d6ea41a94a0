/** Contract expiry dates as text: `format_expiry` and `parse_date`. */
module Expiry {
  import opened Text

  datatype Date = Date(year: int, month: int, day: int)

  function IntText(n: int): string {
    if n < 0 then "-" + Decimal(-n) else Decimal(n)
  }

  /** "%4d": padded on the left with blanks. */
  function Pad4(s: string): string {
    if |s| >= 4 then s else if |s| == 3 then " " + s else if |s| == 2 then "  " + s else if |s| == 1 then "   " + s else "    "
  }

  /** "%2d" above nine, "0%1d" otherwise. */
  function TwoDigits(n: int): string {
    if n > 9 then IntText(n) else "0" + IntText(n)
  }

  function FormatExpiry(d: Date): string {
    Pad4(IntText(d.year)) + TwoDigits(d.month) + TwoDigits(d.day)
  }

  /** What `parse_date` does: false, the parts, or an uncaught bad_lexical_cast. */
  datatype Parsed = NotADate | Threw | Parsed(date: Date)

  function ParseDate(s: string): Parsed {
    if |s| != 8 then NotADate else
      match (CastInt(s[..4]), CastInt(s[4..6]), CastInt(s[6..]))
      case (Some(y), Some(m), Some(d)) => Parsed(Date(y, m, d))
      case _ => Threw
  }

  /** The dates that survive printing: a four-character year, and two digits each for the rest. */
  predicate Printable(d: Date) {
    (1000 <= d.year <= 9999 || -999 <= d.year <= -100) && 0 <= d.month <= 99 && 0 <= d.day <= 99
  }

  /** The dates whose text is read but not as numbers: a year padded with a blank. */
  predicate Unreadable(d: Date) {
    -100 < d.year < 1000 && 0 <= d.month <= 99 && 0 <= d.day <= 99
  }

  lemma DecimalLength(n: nat)
    ensures |Decimal(n)| == 1 <==> n <= 9
    ensures |Decimal(n)| == 2 <==> 10 <= n <= 99
    ensures |Decimal(n)| == 3 <==> 100 <= n <= 999
    ensures |Decimal(n)| == 4 <==> 1000 <= n <= 9999
  {
    if n >= 10 {
      assert |Decimal(n)| == |Decimal(n / 10)| + 1;
      if n >= 100 {
        assert |Decimal(n / 10)| == |Decimal(n / 10 / 10)| + 1;
        if n >= 1000 {
          assert |Decimal(n / 10 / 10)| == |Decimal(n / 10 / 10 / 10)| + 1;
          LongDecimal(n / 10 / 10 / 10);
        }
      }
    }
  }

  lemma {:induction false} DigitsOnly(s: string)
    requires ParseDigits(s).Some?
    ensures forall i :: 0 <= i < |s| ==> IsDigit(s[i])
  {
    if |s| > 1 {
      DigitsOnly(s[..|s| - 1]);
    }
  }

  lemma IntCastUndoesText(n: int)
    requires -0x8000_0000 <= n < 0x8000_0000
    ensures CastInt(IntText(n)) == Some(n)
  {
    if n < 0 {
      assert IntText(n)[1..] == Decimal(-n);
      ParseUndoesDecimal(-n);
    } else {
      CastUndoesDecimal(n, 1);
    }
  }

  lemma TwoDigitsReadBack(n: int)
    ensures |TwoDigits(n)| >= 2
    ensures |TwoDigits(n)| == 2 <==> 0 <= n <= 99
    ensures 0 <= n <= 99 ==> CastInt(TwoDigits(n)) == Some(n)
  {
    if n >= 0 {
      DecimalLength(n);
      if 9 < n <= 99 {
        IntCastUndoesText(n);
      } else if n <= 9 {
        var s := "0" + Decimal(n);
        assert s[..1] == "0" && s[1] == Digit(n);
        assert ParseDigits("0") == Some(0);
        assert ParseDigits(s) == Some(n);
      }
    }
  }

  lemma YearReadsBack(y: int)
    ensures |Pad4(IntText(y))| >= 4
    ensures |Pad4(IntText(y))| == 4 <==> -999 <= y <= 9999
    ensures 1000 <= y <= 9999 || -999 <= y <= -100 ==> CastInt(Pad4(IntText(y))) == Some(y)
    ensures -100 < y < 1000 ==> CastInt(Pad4(IntText(y))).None?
  {
    DecimalLength(if y < 0 then -y else y);
    var s := Pad4(IntText(y));
    if -100 < y < 1000 {
      assert s[0] == ' ';
      if ParseDigits(s).Some? {
        DigitsOnly(s);
      }
    } else if -999 <= y <= 9999 {
      IntCastUndoesText(y);
    }
  }

  /** Parsing undoes formatting exactly for the printable dates, throws exactly for the unreadable
      ones and refuses the rest: no other date ever comes back. */
  lemma ExpiryRoundTrip(d: Date)
    ensures ParseDate(FormatExpiry(d)) == Parsed(d) <==> Printable(d)
    ensures ParseDate(FormatExpiry(d)).Threw? <==> Unreadable(d)
    ensures !Printable(d) && !Unreadable(d) ==> ParseDate(FormatExpiry(d)).NotADate?
  {
    YearReadsBack(d.year);
    TwoDigitsReadBack(d.month);
    TwoDigitsReadBack(d.day);
    var y, m, t := Pad4(IntText(d.year)), TwoDigits(d.month), TwoDigits(d.day);
    var s := FormatExpiry(d);
    if |s| == 8 {
      assert s[..4] == y && s[4..6] == m && s[6..] == t;
    }
  }

  lemma DocumentedExpiry()
    ensures FormatExpiry(Date(2012, 12, 16)) == "20121216"
  {
    assert Decimal(1) == "1" && Decimal(2) == "2";
    assert Decimal(20) == "20" && Decimal(12) == "12" && Decimal(16) == "16";
    assert Decimal(201) == "201";
    assert Decimal(2012) == "2012";
  }

  /** Text that is safe to print into a delimited field. */
  predicate Clean(s: string) {
    ',' !in s && ';' !in s
  }

  lemma CleanConcat(s: string, t: string)
    requires Clean(s) && Clean(t)
    ensures Clean(s + t)
  {
  }

  lemma IntTextIsClean(n: int)
    ensures Clean(IntText(n)) && Clean(Pad4(IntText(n))) && Clean(TwoDigits(n))
  {
    assert !IsDigit(',') && !IsDigit(';');
    assert Clean(Decimal(if n < 0 then -n else n));
  }

  lemma ExpiryIsClean(d: Date)
    ensures Clean(FormatExpiry(d))
  {
    IntTextIsClean(d.year);
    IntTextIsClean(d.month);
    IntTextIsClean(d.day);
    CleanConcat(Pad4(IntText(d.year)), TwoDigits(d.month));
    CleanConcat(Pad4(IntText(d.year)) + TwoDigits(d.month), TwoDigits(d.day));
  }
}
