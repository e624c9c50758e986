/** Dates as the billing code stores and compares them: printed `YYYY-MM-DD` text (RFC 3339,
    section 5.6) compared code unit by code unit, as `<` and `>=` do on JavaScript strings. */
module DateText {
  import opened Basics
  import opened Calendar

  predicate AllDigits(s: string) { forall i :: 0 <= i < |s| ==> IsDigit(s[i]) }

  function DigitChar(v: int): (c: char)
    requires 0 <= v < 10
    ensures IsDigit(c) && DigitValue(c) == v
  {
    '0' + v as char
  }

  /** String(n). */
  function Decimal(n: nat): (s: string)
    ensures |s| > 0 && AllDigits(s)
  {
    if n < 10 then [DigitChar(n)] else Decimal(n / 10) + [DigitChar(n % 10)]
  }

  /** padStart(2, '0'). */
  function PadStart2(s: string): string
    decreases 2 - |s|
  {
    if |s| < 2 then PadStart2("0" + s) else s
  }

  function FormatDate(d: CivilDate): string
    requires d.year >= 0 && d.month >= 0 && d.day >= 0
  {
    Decimal(d.year) + "-" + PadStart2(Decimal(d.month)) + "-" + PadStart2(Decimal(d.day))
  }

  /** Number(text) on text made of digits. */
  function ParseDigits(s: string): (n: nat)
    requires AllDigits(s)
  {
    if s == [] then 0 else 10 * ParseDigits(s[..|s| - 1]) + DigitValue(s[|s| - 1])
  }

  /** text.split('-'). */
  function SplitDash(s: string): (parts: seq<string>)
    ensures |parts| > 0
  {
    if s == [] then [""]
    else
      var rest := SplitDash(s[1..]);
      if s[0] == '-' then [""] + rest else [[s[0]] + rest[0]] + rest[1..]
  }

  /** The three numbers that parseDateParts reads from `YYYY-MM-DD` text. */
  predicate HasDateParts(s: string) {
    var p := SplitDash(s);
    |p| >= 3 && AllDigits(p[0]) && AllDigits(p[1]) && AllDigits(p[2])
  }

  function ParseDateParts(s: string): CivilDate
    requires HasDateParts(s)
  {
    var p := SplitDash(s);
    CivilDate(ParseDigits(p[0]), ParseDigits(p[1]), ParseDigits(p[2]))
  }

  /** Number.parseInt(text.slice(0, 4), 10). */
  function ParseYear(s: string): int
    requires |s| >= 4 && AllDigits(s[..4])
  {
    ParseDigits(s[..4])
  }

  /** a < b on strings. */
  predicate TextLess(a: string, b: string) {
    if b == "" then false
    else if a == "" then true
    else if a[0] != b[0] then a[0] < b[0]
    else TextLess(a[1..], b[1..])
  }

  /** Comparing texts is a strict total order: never both ways, and one way for different texts. A text that
      another goes on from is the smaller one. */
  lemma {:induction false} TextLessIsTotal(a: string, b: string)
    ensures !(TextLess(a, b) && TextLess(b, a)) && (a != b ==> TextLess(a, b) || TextLess(b, a))
    ensures a < b ==> TextLess(a, b)
  {
    if a != "" && b != "" && a[0] == b[0] {
      TextLessIsTotal(a[1..], b[1..]);
      assert a == [a[0]] + a[1..] && b == [b[0]] + b[1..];
    }
  }

  // Parsing undoes printing

  lemma {:induction false} ParseDecimal(n: nat)
    ensures ParseDigits(Decimal(n)) == n
  {
    if n >= 10 {
      ParseDecimal(n / 10);
      var s := Decimal(n);
      assert s[..|s| - 1] == Decimal(n / 10);
    }
  }

  lemma PaddedDecimal(n: nat)
    requires n < 100
    ensures PadStart2(Decimal(n)) == [DigitChar(n / 10), DigitChar(n % 10)]
    ensures AllDigits(PadStart2(Decimal(n))) && ParseDigits(PadStart2(Decimal(n))) == n
  {
    var s := [DigitChar(n / 10), DigitChar(n % 10)];
    if n < 10 {
      assert "0" + Decimal(n) == s;
    } else {
      assert Decimal(n) == s;
    }
    assert s[..1] == [DigitChar(n / 10)] && s[..1][..0] == [];
    assert ParseDigits(s[..1]) == n / 10;
  }

  lemma {:induction false} SplitDashOfDigits(a: string, rest: string)
    requires AllDigits(a)
    ensures SplitDash(a + "-" + rest) == [a] + SplitDash(rest)
  {
    var s := a + "-" + rest;
    if a == "" {
      assert s[1..] == rest;
    } else {
      assert s[1..] == a[1..] + "-" + rest;
      SplitDashOfDigits(a[1..], rest);
      assert [a[0]] + a[1..] == a;
    }
  }

  lemma {:induction false} SplitDashOfPlain(a: string)
    requires AllDigits(a)
    ensures SplitDash(a) == [a]
  {
    if a != "" {
      SplitDashOfPlain(a[1..]);
      assert [a[0]] + a[1..] == a;
    }
  }

  /** Whatever the number of digits in the year, reading a printed date gives that date back. */
  lemma ParseOfFormat(d: CivilDate)
    requires d.year >= 0 && IsDate(d)
    ensures HasDateParts(FormatDate(d)) && ParseDateParts(FormatDate(d)) == d
  {
    var y, m, dd := Decimal(d.year), PadStart2(Decimal(d.month)), PadStart2(Decimal(d.day));
    ParseDecimal(d.year);
    PaddedDecimal(d.month);
    PaddedDecimal(d.day);
    assert FormatDate(d) == y + "-" + (m + "-" + dd);
    SplitDashOfDigits(y, m + "-" + dd);
    SplitDashOfDigits(m, dd);
    SplitDashOfPlain(dd);
  }

  // Text order is time order

  /** Exactly `w` digits of n, most significant first. */
  function Fixed(w: nat, n: nat): (s: string)
    ensures |s| == w
  {
    if w == 0 then "" else Fixed(w - 1, n / 10) + [DigitChar(n % 10)]
  }

  function Pow10(w: nat): (p: nat) {
    if w == 0 then 1 else 10 * Pow10(w - 1)
  }

  /** A difference inside the first parts decides the comparison of the whole texts. */
  lemma {:induction false} TextLessPrefix(a: string, b: string, u: string, v: string)
    requires |a| == |b|
    ensures TextLess(a + u, b + v) <==> TextLess(a, b) || (a == b && TextLess(u, v))
  {
    if a == "" {
      assert a + u == u && b + v == v;
    } else {
      assert (a + u)[1..] == a[1..] + u && (b + v)[1..] == b[1..] + v;
      TextLessPrefix(a[1..], b[1..], u, v);
      assert a == [a[0]] + a[1..] && b == [b[0]] + b[1..];
    }
  }

  lemma {:induction false} FixedOrder(w: nat, m: nat, n: nat)
    requires m < Pow10(w) && n < Pow10(w)
    ensures TextLess(Fixed(w, m), Fixed(w, n)) <==> m < n
    ensures Fixed(w, m) == Fixed(w, n) <==> m == n
  {
    if w > 0 {
      FixedOrder(w - 1, m / 10, n / 10);
      var a, b := [DigitChar(m % 10)], [DigitChar(n % 10)];
      TextLessPrefix(Fixed(w - 1, m / 10), Fixed(w - 1, n / 10), a, b);
      assert TextLess(a, b) <==> m % 10 < n % 10;
      assert Fixed(w, m)[..w - 1] == Fixed(w - 1, m / 10) && Fixed(w, m)[w - 1] == a[0];
      assert Fixed(w, n)[..w - 1] == Fixed(w - 1, n / 10) && Fixed(w, n)[w - 1] == b[0];
    }
  }

  predicate FourDigitYear(d: CivilDate) { 1000 <= d.year <= 9999 }

  lemma DecimalOfYear(n: nat)
    requires 1000 <= n <= 9999
    ensures Decimal(n) == Fixed(4, n)
  {
    assert Decimal(n) == Decimal(n / 10) + [DigitChar(n % 10)];
    assert Decimal(n / 10) == Decimal(n / 10 / 10) + [DigitChar(n / 10 % 10)];
    var top := n / 10 / 10;
    assert Decimal(top) == [DigitChar(top / 10)] + [DigitChar(top % 10)];
    assert Fixed(1, top / 10) == [DigitChar(top / 10 % 10)];
    assert Fixed(2, top) == Fixed(1, top / 10) + [DigitChar(top % 10)];
    assert Fixed(3, n / 10) == Fixed(2, top) + [DigitChar(n / 10 % 10)];
  }

  lemma PaddedIsFixed(n: nat)
    requires n < 100
    ensures PadStart2(Decimal(n)) == Fixed(2, n)
  {
    PaddedDecimal(n);
    assert Fixed(2, n) == Fixed(1, n / 10) + [DigitChar(n % 10)];
  }

  lemma FormatIsFixed(d: CivilDate)
    requires FourDigitYear(d) && IsDate(d)
    ensures FormatDate(d) == Fixed(4, d.year) + ("-" + (Fixed(2, d.month) + ("-" + Fixed(2, d.day))))
  {
    DecimalOfYear(d.year);
    PaddedIsFixed(d.month);
    PaddedIsFixed(d.day);
    hide Decimal, Fixed, PadStart2;
    assert FormatDate(d)
        == Fixed(4, d.year) + ("-" + (PadStart2(Decimal(d.month)) + ("-" + PadStart2(Decimal(d.day)))));
  }

  lemma YearOfFormat(d: CivilDate)
    requires FourDigitYear(d) && IsDate(d)
    ensures |FormatDate(d)| == 10 && AllDigits(FormatDate(d)[..4])
    ensures ParseYear(FormatDate(d)) == d.year
  {
    FormatIsFixed(d);
    DecimalOfYear(d.year);
    assert FormatDate(d)[..4] == Decimal(d.year);
    ParseDecimal(d.year);
  }

  /** Comparing printed dates compares the days they name (RFC 3339, section 5.1). */
  lemma TextOrderIsTimeOrder(a: CivilDate, b: CivilDate)
    requires FourDigitYear(a) && IsDate(a) && FourDigitYear(b) && IsDate(b)
    ensures TextLess(FormatDate(a), FormatDate(b)) <==> DayNumber(a) < DayNumber(b)
  {
    FormatIsFixed(a);
    FormatIsFixed(b);
    FixedOrder(4, a.year, b.year);
    FixedOrder(2, a.month, b.month);
    FixedOrder(2, a.day, b.day);
    var ta, tb := Fixed(2, a.day), Fixed(2, b.day);
    TextLessPrefix("-", "-", ta, tb);
    var sa, sb := Fixed(2, a.month), Fixed(2, b.month);
    TextLessPrefix(sa, sb, "-" + ta, "-" + tb);
    TextLessPrefix("-", "-", sa + ("-" + ta), sb + ("-" + tb));
    TextLessPrefix(Fixed(4, a.year), Fixed(4, b.year), "-" + (sa + ("-" + ta)), "-" + (sb + ("-" + tb)));
    DayNumberOrder(a, b);
  }

  lemma FormatExample()
    ensures FormatDate(CivilDate(2025, 3, 9)) == "2025-03-09"
  {
    FormatIsFixed(CivilDate(2025, 3, 9));
    FixedExamples();
    hide *;
    assert "2025" + ("-" + ("03" + ("-" + "09"))) == "2025-03-09";
  }

  lemma FixedExamples()
    ensures Fixed(4, 2025) == "2025" && Fixed(2, 3) == "03" && Fixed(2, 9) == "09"
  {
    assert Fixed(1, 2) == "2" && Fixed(2, 20) == "20" && Fixed(3, 202) == "202";
    assert Fixed(1, 0) == "0";
  }

  /** Outside four-digit years the text order is not the time order: years are not padded. */
  lemma UnpaddedYearBreaksOrder()
    ensures exists a: CivilDate, b: CivilDate ::
      && IsDate(a) && IsDate(b) && a.year == 999 && b.year == 1000
      && DayNumber(a) < DayNumber(b) && !TextLess(FormatDate(a), FormatDate(b))
  {
    var a, b := CivilDate(999, 12, 31), CivilDate(1000, 1, 1);
    DayNumberOrder(a, b);
    assert Decimal(999) == Decimal(99) + ['9'];
    assert Decimal(99) == ['9', '9'];
    assert Decimal(1000) == Decimal(100) + ['0'] && Decimal(100) == Decimal(10) + ['0'] && Decimal(10) == ['1', '0'];
    assert FormatDate(a)[0] == '9';
    assert FormatDate(b)[0] == '1';
  }
}
