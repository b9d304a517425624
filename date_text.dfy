/**
 * The `MM-DD-YYYY` text form of a date: `strftime("%m-%d-%Y")` when the
 * generator and the form write a date, `strptime(date, "%m-%d-%Y")` when
 * `record_observation` in utils.py reads the year back.
 */
module DateText {
  import opened Wrappers
  import opened Calendar

  predicate IsDigit(c: char)
  {
    '0' <= c <= '9'
  }

  function Digit(k: int): (c: char)
    requires 0 <= k <= 9
    ensures IsDigit(c) && c as int - '0' as int == k
  {
    ('0' as int + k) as char
  }

  predicate AllDigits(s: string)
  {
    forall i :: 0 <= i < |s| ==> IsDigit(s[i])
  }

  /** The decimal value of a string of digits, most significant first. */
  function DecimalValue(s: string): (v: nat)
    requires AllDigits(s)
  {
    if s == [] then 0
    else DecimalValue(s[..|s| - 1]) * 10 + (s[|s| - 1] as int - '0' as int)
  }

  /** `n` written with exactly two digits, zero-padded (`%m`, `%d`). */
  function Pad2(n: int): string
    requires 0 <= n < 100
  {
    [Digit(n / 10), Digit(n % 10)]
  }

  /** `n` written with exactly four digits, zero-padded (`%Y`). */
  function Pad4(n: int): string
    requires 0 <= n < 10000
  {
    [Digit(n / 1000), Digit(n / 100 % 10), Digit(n / 10 % 10), Digit(n % 10)]
  }

  /** `strftime("%m-%d-%Y")`. */
  function Format(d: CalendarDate): (s: string)
    ensures |s| == 10 && s[2] == '-' && s[5] == '-'
    ensures AllDigits(s[0..2]) && AllDigits(s[3..5]) && AllDigits(s[6..10])
  {
    Pad2(d.month) + "-" + Pad2(d.day) + "-" + Pad4(d.year)
  }

  /**
   * `strptime(s, "%m-%d-%Y")` restricted to the zero-padded form: two digits,
   * a dash, two digits, a dash, four digits, naming a real calendar date;
   * anything else is the ValueError, here `None`.
   */
  function Parse(s: string): (r: Option<CalendarDate>)
    ensures r.Some? ==> |s| == 10 && s[2] == '-' && s[5] == '-'
  {
    if |s| == 10 && s[2] == '-' && s[5] == '-'
       && AllDigits(s[0..2]) && AllDigits(s[3..5]) && AllDigits(s[6..10])
    then
      var d := Date(DecimalValue(s[0..2]), DecimalValue(s[3..5]), DecimalValue(s[6..10]));
      if ValidDate(d) then Some(d) else None
    else None
  }

  lemma DecimalValueOfTwo(s: string)
    requires |s| == 2 && AllDigits(s)
    ensures DecimalValue(s) == (s[0] as int - 48) * 10 + (s[1] as int - 48)
  {
    var p := s[..1];
    assert p[..0] == [] && p[0] == s[0];
    assert DecimalValue(p) == s[0] as int - 48;
  }

  lemma DecimalValueOfFour(s: string)
    requires |s| == 4 && AllDigits(s)
    ensures DecimalValue(s)
         == (s[0] as int - 48) * 1000 + (s[1] as int - 48) * 100 + (s[2] as int - 48) * 10 + (s[3] as int - 48)
  {
    var p := s[..3];
    assert p[..2] == s[..2] && p[2] == s[2];
    DecimalValueOfTwo(s[..2]);
    assert DecimalValue(p) == DecimalValue(s[..2]) * 10 + (s[2] as int - 48);
  }

  lemma Pad2Value(n: int)
    requires 0 <= n < 100
    ensures AllDigits(Pad2(n)) && DecimalValue(Pad2(n)) == n
  {
    DecimalValueOfTwo(Pad2(n));
  }

  lemma Pad4Value(n: int)
    requires 0 <= n < 10000
    ensures AllDigits(Pad4(n)) && DecimalValue(Pad4(n)) == n
  {
    var s := Pad4(n);
    DecimalValueOfFour(s);
    var a, b, c, d := n / 1000, n / 100 % 10, n / 10 % 10, n % 10;
    assert s[0] as int - 48 == a && s[1] as int - 48 == b && s[2] as int - 48 == c && s[3] as int - 48 == d;
    assert n / 100 == 10 * a + b;
    assert n / 10 == 10 * (n / 100) + c;
    assert n == 10 * (n / 10) + d;
  }

  lemma ValuePad2(s: string)
    requires |s| == 2 && AllDigits(s)
    ensures DecimalValue(s) < 100 && Pad2(DecimalValue(s)) == s
  {
    DecimalValueOfTwo(s);
  }

  lemma DigitOfValue(c: char)
    requires IsDigit(c)
    ensures Digit(c as int - 48) == c
  {
  }

  lemma FourDigits(a: int, b: int, c: int, d: int)
    requires 0 <= a <= 9 && 0 <= b <= 9 && 0 <= c <= 9 && 0 <= d <= 9
    ensures var n := 1000 * a + 100 * b + 10 * c + d;
      n / 1000 == a && n / 100 % 10 == b && n / 10 % 10 == c && n % 10 == d
  {
    var n := 1000 * a + 100 * b + 10 * c + d;
    assert n == 100 * (10 * a + b) + (10 * c + d);
    assert n / 100 == 10 * a + b;
    assert n == 10 * (100 * a + 10 * b + c) + d;
    assert n / 10 == 100 * a + 10 * b + c;
  }

  lemma ValuePad4(s: string)
    requires |s| == 4 && AllDigits(s)
    ensures DecimalValue(s) < 10000 && Pad4(DecimalValue(s)) == s
  {
    DecimalValueOfFour(s);
    FourDigits(s[0] as int - 48, s[1] as int - 48, s[2] as int - 48, s[3] as int - 48);
    DigitOfValue(s[0]);
    DigitOfValue(s[1]);
    DigitOfValue(s[2]);
    DigitOfValue(s[3]);
  }

  /** Reading back what `strftime` wrote gives the same date. */
  lemma {:induction false} ParseFormat(d: CalendarDate)
    ensures Parse(Format(d)) == Some(d)
  {
    var s := Format(d);
    Pad2Value(d.month);
    Pad2Value(d.day);
    Pad4Value(d.year);
    assert s[0..2] == Pad2(d.month);
    assert s[3..5] == Pad2(d.day);
    assert s[6..10] == Pad4(d.year);
  }

  /** Whatever parses was written in exactly the form `strftime` writes. */
  lemma {:induction false} FormatParse(s: string)
    requires Parse(s).Some?
    ensures Format(Parse(s).value) == s
  {
    var d := Parse(s).value;
    ValuePad2(s[0..2]);
    ValuePad2(s[3..5]);
    ValuePad4(s[6..10]);
    assert s == s[0..2] + "-" + s[3..5] + "-" + s[6..10];
  }

  /** Two dates with the same text are the same date. */
  lemma FormatInjective(d1: CalendarDate, d2: CalendarDate)
    ensures Format(d1) == Format(d2) <==> d1 == d2
  {
    if Format(d1) == Format(d2) {
      ParseFormat(d1);
      ParseFormat(d2);
    }
  }
}
