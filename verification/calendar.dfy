/** Dates and month keys. A date is a whole number of days since 1970-01-01
    (the controllers only ever compare dates and add whole days to them); a month
    key is the string `YYYY-MM` that `toISOString().slice(0, 7)` produces. */
module Calendar {
  import opened Wrappers
  import opened Text

  type Day = int

  /** Day number of the proleptic Gregorian date y-m-d (1970-01-01 is day 0). */
  function DaysFromCivil(y: int, m: int, d: int): Day
    requires 1 <= m <= 12 && 1 <= d <= 31
  {
    var y' := if m <= 2 then y - 1 else y;
    var era := y' / 400;
    var yoe := y' - era * 400;
    var mp := (m + 9) % 12;
    var doy := (153 * mp + 2) / 5 + d - 1;
    var doe := yoe * 365 + yoe / 4 - yoe / 100 + doy;
    era * 146097 + doe - 719468
  }

  const MonthNames: seq<string> := [
    "January", "February", "March", "April", "May", "June",
    "July", "August", "September", "October", "November", "December"
  ]

  /** Fixed-width decimal digits of `n` (its `width` lowest digits, zero-padded). */
  function Digits(n: nat, width: nat): (s: string)
    ensures |s| == width
    ensures forall i :: 0 <= i < |s| ==> IsDigit(s[i])
  {
    if width == 0 then "" else Digits(n / 10, width - 1) + [DigitChar(n % 10)]
  }

  /** The month key of year `y`, month `m`: four-digit year, dash, two-digit month. */
  function MonthKey(y: nat, m: nat): (key: string)
    requires y <= 9999 && 1 <= m <= 12
    ensures |key| == 7 && key[4] == '-'
  {
    Digits(y, 4) + "-" + Digits(m, 2)
  }

  /** How the payment endpoints display a month key: `"YYYY-MM"` becomes `"<month name> YYYY"`.
      `monthNames[parseInt(month) - 1]` is `undefined` outside 1..12 and when the key has no
      month part, and the template literal then prints `"undefined"`. */
  function RenderMonth(key: string): (r: string)
    ensures exists name :: (name in MonthNames || name == "undefined") && r == name + " " + FirstPiece(key, '-')
  {
    var year := FirstPiece(key, '-');
    var month := SecondPiece(key, '-');
    MonthName(if month.Some? then ParseInt(month.value) else None) + " " + year
  }

  /** `monthNames[n - 1]` as a template literal prints it: "undefined" for `NaN` and for
      numbers outside 1..12. */
  function MonthName(n: Option<int>): (name: string)
    ensures name in MonthNames || name == "undefined"
  {
    if n.Some? && 1 <= n.value <= 12 then MonthNames[n.value - 1] else "undefined"
  }

  /** Rendering a key built from (y, m) names month m and keeps the four year digits. */
  lemma RenderMonthKey(y: nat, m: nat)
    requires y <= 9999 && 1 <= m <= 12
    ensures RenderMonth(MonthKey(y, m)) == MonthNames[m - 1] + " " + Digits(y, 4)
  {
    var key := MonthKey(y, m);
    KeyPieces(y, m);
    MonthDigitsParse(m);
    var month := SecondPiece(key, '-');
    assert month == Some(Digits(m, 2));
    assert ParseInt(month.value) == Some(m);
  }

  /** A month key splits at its dash into the year digits and the month digits. */
  lemma KeyPieces(y: nat, m: nat)
    requires y <= 9999 && 1 <= m <= 12
    ensures FirstPiece(MonthKey(y, m), '-') == Digits(y, 4)
    ensures SecondPiece(MonthKey(y, m), '-') == Some(Digits(m, 2))
  {
    var key := MonthKey(y, m);
    var year, mm := Digits(y, 4), Digits(m, 2);
    assert key == year + ['-'] + mm;
    NoDashInDigits(y, 4);
    NoDashInDigits(m, 2);
    FirstPieceOfJoin(year, '-', mm);
    assert key[|year| + 1..] == mm;
    FirstPieceOfJoin(mm, '-', "");
    assert mm + ['-'] + "" == mm + ['-'];
    assert |FirstPiece(mm, '-')| == |mm|;
  }

  lemma NoDashInDigits(n: nat, width: nat)
    ensures '-' !in Digits(n, width)
  {
    var s := Digits(n, width);
    forall i | 0 <= i < |s| ensures s[i] != '-' {
      assert IsDigit(s[i]);
    }
  }

  /** `parseInt` reads back the two-digit month. */
  lemma MonthDigitsParse(m: nat)
    requires 1 <= m <= 12
    ensures ParseInt(Digits(m, 2)) == Some(m)
  {
    var hi, lo := m / 10, m % 10;
    assert hi < 10 && hi * 10 + lo == m;
    var a, b := DigitChar(hi), DigitChar(lo);
    TwoDigits(m);
    var s := Digits(m, 2);
    assert s == [a, b];
    ParseNumeral(s);
    TwoDigitValue(a, b);
    assert ValueIn(s, 10) == hi * 10 + lo;
  }

  lemma TwoDigitValue(a: char, b: char)
    requires IsDigit(a) && IsDigit(b)
    ensures ValueIn([a, b], 10) == DigitValue(a) * 10 + DigitValue(b)
  {
    assert [a, b][..1] == [a];
    assert [a][..0] == [];
    assert DecimalValue([a]) == DigitValue(a);
  }

  lemma TwoDigits(n: nat)
    requires n < 100
    ensures Digits(n, 2) == [DigitChar(n / 10), DigitChar(n % 10)]
  {
    assert Digits(n / 10, 1) == [DigitChar(n / 10)] by {
      assert (n / 10) % 10 == n / 10;
    }
  }

  /** A key made of a year and a month without dashes renders the month `parseInt` reads,
      "undefined" when that is not 1..12, followed by the year as written. */
  lemma RenderMonthPieces(year: string, month: string)
    requires '-' !in year && '-' !in month
    ensures RenderMonth(year + "-" + month) == MonthName(ParseInt(month)) + " " + year
  {
    var key := year + "-" + month;
    assert key == year + ['-'] + month;
    FirstPieceOfJoin(year, '-', month);
    assert key[|year| + 1..] == month;
    assert FirstPiece(month, '-') == month;
    assert SecondPiece(key, '-') == Some(month);
  }
}
