/**
 * The `YYYY-MM-DD` strings that carry dates between the default-range code and the
 * day counter: the source's `toIso` formatter (full year, zero-padded month and day)
 * and the date-only form that `new Date(string)` reads as UTC midnight.
 */
module IsoDate {
  import opened Wrappers
  import opened Calendar

  predicate IsDigit(c: char) {
    '0' <= c <= '9'
  }

  predicate AllDigits(s: string) {
    forall i :: 0 <= i < |s| ==> IsDigit(s[i])
  }

  function DigitChar(d: int): (c: char)
    requires 0 <= d <= 9
    ensures IsDigit(c)
  {
    ('0' as int + d) as char
  }

  function DigitValue(c: char): (d: int)
    requires IsDigit(c)
    ensures 0 <= d <= 9 && DigitChar(d) == c
  {
    c as int - '0' as int
  }

  function Pow10(k: nat): nat {
    if k == 0 then 1 else 10 * Pow10(k - 1)
  }

  /** `String(n)` for a non-negative integer: its decimal digits, most significant first. */
  function NatToDecimal(n: nat): (s: string)
    ensures |s| >= 1 && AllDigits(s)
  {
    if n < 10 then [DigitChar(n)] else NatToDecimal(n / 10) + [DigitChar(n % 10)]
  }

  /** `String(n)` for any integer. */
  function IntToDecimal(n: int): string {
    if n < 0 then "-" + NatToDecimal(-n) else NatToDecimal(n)
  }

  /** The value of a string of decimal digits. */
  function DecimalValue(s: string): nat
    requires AllDigits(s)
  {
    if |s| == 0 then 0 else DecimalValue(s[..|s| - 1]) * 10 + DigitValue(s[|s| - 1])
  }

  /** `s.padStart(2, "0")`. */
  function PadStart2(s: string): (r: string)
    ensures |r| == if |s| < 2 then 2 else |s|
    ensures r[|r| - |s|..] == s
    ensures forall i :: 0 <= i < |r| - |s| ==> r[i] == '0'
  {
    if |s| == 0 then "00" else if |s| == 1 then "0" + s else s
  }

  /** Where the fields of `y-m-dd` sit, for two-character `m` and `dd`. */
  lemma JoinedFields(y: string, m: string, dd: string)
    requires |m| == 2 && |dd| == 2
    ensures var s := y + "-" + m + "-" + dd;
      && |s| == |y| + 6
      && s[..|y|] == y && s[|y|] == '-' && s[|y| + 1..|y| + 3] == m
      && s[|y| + 3] == '-' && s[|y| + 4..] == dd
  {
  }

  /** The source's `toIso`: full year, then month and day padded to two digits. */
  function ToIso(d: Date): (s: string)
    requires ValidDate(d)
    ensures |s| == |IntToDecimal(d.year)| + 6
    ensures s[..|s| - 6] == IntToDecimal(d.year) && s[|s| - 6] == '-' && s[|s| - 3] == '-'
    ensures AllDigits(s[|s| - 5..|s| - 3]) && DecimalValue(s[|s| - 5..|s| - 3]) == d.month
    ensures AllDigits(s[|s| - 2..]) && DecimalValue(s[|s| - 2..]) == d.day
  {
    var y := IntToDecimal(d.year);
    var m := PadStart2(NatToDecimal(d.month));
    var dd := PadStart2(NatToDecimal(d.day));
    PaddedRoundTrip(d.month);
    PaddedRoundTrip(d.day);
    JoinedFields(y, m, dd);
    y + "-" + m + "-" + dd
  }

  /**
   * Reading of the date-only form `DDDD-DD-DD`; `None` for any other string and for
   * a month or day outside the calendar.
   */
  function ParseIsoDate(s: string): (r: Option<Date>)
    ensures r.Some? ==> ValidDate(r.value) && 0 <= r.value.year <= 9999
    ensures r.Some? ==> |s| == 10 && s[4] == '-' && s[7] == '-'
    ensures r.Some? ==> AllDigits(s[..4]) && AllDigits(s[5..7]) && AllDigits(s[8..])
  {
    if |s| == 10 && s[4] == '-' && s[7] == '-'
       && AllDigits(s[..4]) && AllDigits(s[5..7]) && AllDigits(s[8..]) then
      var d := Date(DecimalValue(s[..4]), DecimalValue(s[5..7]), DecimalValue(s[8..]));
      DecimalBound(s[..4]);
      if ValidDate(d) then Some(d) else None
    else
      None
  }

  lemma {:induction false} DecimalBound(s: string)
    requires AllDigits(s)
    ensures DecimalValue(s) < Pow10(|s|)
  {
    if |s| > 0 {
      DecimalBound(s[..|s| - 1]);
    }
  }

  /** Reading back the digits of `n` gives `n`. */
  lemma {:induction false} DecimalRoundTrip(n: nat)
    ensures DecimalValue(NatToDecimal(n)) == n
  {
    if n >= 10 {
      var s := NatToDecimal(n);
      var prefix := NatToDecimal(n / 10);
      assert s == prefix + [DigitChar(n % 10)];
      assert s[..|s| - 1] == prefix;
      DecimalRoundTrip(n / 10);
    }
  }

  /** A number of `k` digits is written with `k` characters. */
  lemma {:induction false} DecimalLength(n: nat, k: nat)
    requires k >= 1 && Pow10(k - 1) <= n < Pow10(k)
    ensures |NatToDecimal(n)| == k
  {
    if k > 1 {
      DecimalLength(n / 10, k - 1);
    }
  }

  /** Padding one- or two-digit numbers keeps their value and gives two digits. */
  lemma PaddedRoundTrip(n: nat)
    requires 1 <= n <= 99
    ensures |PadStart2(NatToDecimal(n))| == 2
    ensures AllDigits(PadStart2(NatToDecimal(n)))
    ensures DecimalValue(PadStart2(NatToDecimal(n))) == n
  {
    DecimalRoundTrip(n);
    var s := NatToDecimal(n);
    if n < 10 {
      var p := PadStart2(s);
      assert p == ['0', DigitChar(n)];
      assert p[..1] == ['0'];
      assert DecimalValue(p[..1]) == 0 by {
        assert p[..1][..0] == [];
      }
    } else {
      DecimalLength(n, 2);
    }
  }

  /**
   * A date written by `ToIso` and read back by `ParseIsoDate` is the same date, for the
   * four-digit years the date-only form can express.
   */
  lemma IsoRoundTrip(d: Date)
    requires ValidDate(d) && 1000 <= d.year <= 9999
    ensures ParseIsoDate(ToIso(d)) == Some(d)
  {
    DecimalLength(d.year, 4);
    DecimalRoundTrip(d.year);
    var s := ToIso(d);
    assert s[..4] == NatToDecimal(d.year);
  }

  /** Digits without a leading zero are exactly how `NatToDecimal` writes their value. */
  lemma {:induction false} DecimalCanonical(t: string)
    requires |t| >= 1 && AllDigits(t) && DecimalValue(t) >= Pow10(|t| - 1)
    ensures NatToDecimal(DecimalValue(t)) == t
  {
    var last := t[|t| - 1];
    if |t| == 1 {
      assert t == [last];
      assert t[..0] == [];
    } else {
      var p := t[..|t| - 1];
      var v := DecimalValue(t);
      var dp := DecimalValue(p);
      assert v == dp * 10 + DigitValue(last);
      assert v / 10 == dp && v % 10 == DigitValue(last);
      assert Pow10(|t| - 1) == 10 * Pow10(|p| - 1);
      assert dp >= Pow10(|p| - 1);
      DecimalCanonical(p);
      assert t == p + [last];
    }
  }

  /** Two digits with a non-zero value are what padding the value's decimal form gives. */
  lemma PaddedCanonical(t: string)
    requires |t| == 2 && AllDigits(t) && DecimalValue(t) >= 1
    ensures PadStart2(NatToDecimal(DecimalValue(t))) == t
  {
    assert t[..1][..0] == [];
    if t[0] == '0' {
      assert DecimalValue(t[..1]) == 0;
      var v := DecimalValue(t);
      assert v == DigitValue(t[1]);
      assert NatToDecimal(v) == [t[1]];
      assert t == "0" + [t[1]];
    } else {
      DecimalCanonical(t);
    }
  }

  /** A date-only string with a four-digit year that `ParseIsoDate` accepts is what `ToIso` writes. */
  lemma ParseThenPrint(s: string)
    requires ParseIsoDate(s).Some? && ParseIsoDate(s).value.year >= 1000
    ensures ToIso(ParseIsoDate(s).value) == s
  {
    var d := ParseIsoDate(s).value;
    DecimalCanonical(s[..4]);
    PaddedCanonical(s[5..7]);
    PaddedCanonical(s[8..]);
    assert s == s[..4] + "-" + s[5..7] + "-" + s[8..];
  }

  /** For four-digit years, `ParseIsoDate` accepts exactly what `ToIso` writes. */
  lemma ParseIffPrinted(s: string, d: Date)
    requires ValidDate(d) && 1000 <= d.year <= 9999
    ensures ParseIsoDate(s) == Some(d) <==> s == ToIso(d)
  {
    if ParseIsoDate(s) == Some(d) {
      ParseThenPrint(s);
    }
    if s == ToIso(d) {
      IsoRoundTrip(d);
    }
  }

  lemma ExampleToIso()
    ensures ToIso(Date(2024, 2, 29)) == "2024-02-29"
  {
    ExampleParse();
    ParseIffPrinted("2024-02-29", Date(2024, 2, 29));
  }

  lemma ExampleParse()
    ensures ParseIsoDate("2024-02-29") == Some(Date(2024, 2, 29))
  {
    var s := "2024-02-29";
    assert s[..4] == "2024" && s[5..7] == "02" && s[8..] == "29";
    ExampleYearDigits();
    assert DecimalValue("02") == 2 by {
      assert "02"[..1] == "0" && "0"[..0] == [];
    }
    assert DecimalValue("29") == 29 by {
      assert "29"[..1] == "2" && "2"[..0] == [];
    }
  }

  lemma ExampleYearDigits()
    ensures DecimalValue("2024") == 2024
  {
    assert "2024"[..3] == "202" && "202"[..2] == "20" && "20"[..1] == "2" && "2"[..0] == [];
  }
}
