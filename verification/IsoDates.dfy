/** Dates, their ISO form and decimal numbers, as the parts of a window's source id. */
module IsoDates {
  import opened Text

  /** A date as the number yyyymmdd, so that dates compare like numbers. */
  type Date = n: int | 0 <= n < 100_000_000

  function Digit(n: int): (c: char)
    requires 0 <= n < 10
    ensures IsDigit(c)
  {
    ('0' as int + n) as char
  }

  /** The last `width` decimal digits, with leading zeros. */
  function Digits(n: nat, width: nat): (s: string)
    ensures |s| == width
  {
    if width == 0 then "" else Digits(n / 10, width - 1) + [Digit(n % 10)]
  }

  function PowerOfTen(k: nat): (p: nat)
    ensures p >= 1
  {
    if k == 0 then 1 else 10 * PowerOfTen(k - 1)
  }

  /** `str(date)`: YYYY-MM-DD. */
  function Iso(d: Date): (s: string)
    ensures |s| == 10
  {
    Digits(d / 10_000, 4) + "-" + Digits(d / 100 % 100, 2) + "-" + Digits(d % 100, 2)
  }

  /** `str(n)` for a number that is not negative. */
  function Decimal(n: nat): (s: string)
    ensures s != [] && (n < 10 <==> |s| == 1)
    ensures forall c :: c in s ==> IsDigit(c)
  {
    if n < 10 then [Digit(n)] else Decimal(n / 10) + [Digit(n % 10)]
  }

  lemma {:induction false} DigitsInjective(a: nat, b: nat, width: nat)
    requires a < PowerOfTen(width) && b < PowerOfTen(width)
    requires Digits(a, width) == Digits(b, width)
    ensures a == b
  {
    if width > 0 {
      var s, t := Digits(a, width), Digits(b, width);
      assert s[width - 1] == t[width - 1];
      assert s[..width - 1] == Digits(a / 10, width - 1) && t[..width - 1] == Digits(b / 10, width - 1);
      DigitsInjective(a / 10, b / 10, width - 1);
    }
  }

  lemma IsoInjective(a: Date, b: Date)
    requires Iso(a) == Iso(b)
    ensures a == b
  {
    var s, t := Iso(a), Iso(b);
    assert s[..4] == Digits(a / 10_000, 4) && t[..4] == Digits(b / 10_000, 4);
    assert s[5..7] == Digits(a / 100 % 100, 2) && t[5..7] == Digits(b / 100 % 100, 2);
    assert s[8..] == Digits(a % 100, 2) && t[8..] == Digits(b % 100, 2);
    assert PowerOfTen(2) == 100 && PowerOfTen(4) == 100 * PowerOfTen(2);
    DigitsInjective(a / 10_000, b / 10_000, 4);
    DigitsInjective(a / 100 % 100, b / 100 % 100, 2);
    DigitsInjective(a % 100, b % 100, 2);
    assert a / 10_000 == a / 100 / 100 && b / 10_000 == b / 100 / 100;
  }

  /** The number that a text of digits is read as. */
  function Number(s: string): nat
    requires forall c :: c in s ==> IsDigit(c)
  {
    if s == "" then 0
    else
      var last := s[|s| - 1];
      assert last in s;
      10 * Number(s[..|s| - 1]) + DigitValue(last)
  }

  function DigitValue(c: char): (n: nat)
    requires IsDigit(c)
    ensures n < 10 && Digit(n) == c
  {
    assert '0' as int <= c as int <= '9' as int;
    c as int - '0' as int
  }

  lemma NumberSnoc(s: string, n: int)
    requires (forall c :: c in s ==> IsDigit(c)) && 0 <= n < 10
    ensures forall c :: c in s + [Digit(n)] ==> IsDigit(c)
    ensures Number(s + [Digit(n)]) == 10 * Number(s) + n
  {
    assert (s + [Digit(n)])[..|s|] == s;
  }

  lemma {:induction false} DigitsRead(n: nat, width: nat)
    requires n < PowerOfTen(width)
    ensures forall c :: c in Digits(n, width) ==> IsDigit(c)
    ensures Number(Digits(n, width)) == n
  {
    if width > 0 {
      DigitsRead(n / 10, width - 1);
      NumberSnoc(Digits(n / 10, width - 1), n % 10);
    }
  }

  /** The text of a date is its year, month and day, with dashes in between. */
  lemma IsoRead(d: Date)
    ensures
      var s := Iso(d);
      s[4] == '-' == s[7]
      && (forall c :: c in s[..4] || c in s[5..7] || c in s[8..] ==> IsDigit(c))
      && Number(s[..4]) == d / 10_000 && Number(s[5..7]) == d / 100 % 100 && Number(s[8..]) == d % 100
  {
    var s := Iso(d);
    assert s[..4] == Digits(d / 10_000, 4) && s[5..7] == Digits(d / 100 % 100, 2) && s[8..] == Digits(d % 100, 2);
    assert PowerOfTen(2) == 100 && PowerOfTen(4) == 100 * PowerOfTen(2);
    DigitsRead(d / 10_000, 4);
    DigitsRead(d / 100 % 100, 2);
    DigitsRead(d % 100, 2);
  }

  /** The text of a number is read as that number, and has no leading zero but for "0" itself. */
  lemma {:induction false} DecimalRead(n: nat)
    ensures Number(Decimal(n)) == n && (n > 0 ==> Decimal(n)[0] != '0')
  {
    if n >= 10 {
      DecimalRead(n / 10);
      NumberSnoc(Decimal(n / 10), n % 10);
    } else {
      assert Decimal(n) == "" + [Digit(n)];
      NumberSnoc("", n);
    }
  }

  lemma {:induction false} DecimalInjective(a: nat, b: nat)
    requires Decimal(a) == Decimal(b)
    ensures a == b
  {
    var s, t := Decimal(a), Decimal(b);
    assert s[|s| - 1] == t[|t| - 1];
    if a >= 10 && b >= 10 {
      assert s[..|s| - 1] == Decimal(a / 10) && t[..|t| - 1] == Decimal(b / 10);
      DecimalInjective(a / 10, b / 10);
    }
  }
}
