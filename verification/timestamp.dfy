/**
 * The timestamps of the forecast: the naive `datetime` values that
 * `datetime.strptime(text, FORMAT)` yields for `FORMAT = "%Y-%m-%dT%XZ"`
 * (`%X` is `%H:%M:%S` in the C locale), and the text `str(datetime)` gives them.
 */
module Timestamp {
  import opened Wrappers

  /** A naive date and time with whole seconds: no time zone, no microseconds. */
  datatype DateTime = DateTime(year: nat, month: nat, day: nat, hour: nat, minute: nat, second: nat)

  /** Leap years of the proleptic Gregorian calendar that `datetime` uses. */
  predicate IsLeapYear(y: nat)
  {
    y % 4 == 0 && (y % 100 != 0 || y % 400 == 0)
  }

  function DaysInMonth(y: nat, m: nat): (n: nat)
    requires 1 <= m <= 12
    ensures 28 <= n <= 31
    ensures m == 2 ==> (n == 29 <==> IsLeapYear(y))
  {
    if m == 2 then (if IsLeapYear(y) then 29 else 28)
    else if m == 4 || m == 6 || m == 9 || m == 11 then 30
    else 31
  }

  /** The values `datetime` accepts for each field. */
  predicate Valid(t: DateTime)
  {
    1 <= t.year <= 9999 && 1 <= t.month <= 12 && 1 <= t.day <= DaysInMonth(t.year, t.month)
    && t.hour <= 23 && t.minute <= 59 && t.second <= 59
  }

  predicate IsDigit(c: char)
  {
    '0' <= c <= '9'
  }

  predicate AllDigits(s: string)
  {
    forall i :: 0 <= i < |s| ==> IsDigit(s[i])
  }

  function Pow10(n: nat): (p: nat)
    ensures p >= 1
  {
    if n == 0 then 1 else 10 * Pow10(n - 1)
  }

  /** The number a run of decimal digits denotes; it is below 10 to the number of digits. */
  function DigitsValue(s: string): (v: nat)
    requires AllDigits(s)
    ensures v < Pow10(|s|)
  {
    if s == [] then 0
    else 10 * DigitsValue(s[..|s| - 1]) + (s[|s| - 1] as int - '0' as int)
  }

  /** `n` written with exactly `w` decimal digits, zero-padded on the left (`%0wd`). */
  function Digits(n: nat, w: nat): (s: string)
    ensures |s| == w && AllDigits(s)
  {
    if w == 0 then []
    else Digits(n / 10, w - 1) + [('0' as int + n % 10) as char]
  }

  /** Reading back what `Digits` writes gives the number, when it fits in the width. */
  lemma {:induction false} DigitsValueOfDigits(n: nat, w: nat)
    requires n < Pow10(w)
    ensures DigitsValue(Digits(n, w)) == n
  {
    if w > 0 {
      DigitsValueOfDigits(n / 10, w - 1);
      var s := Digits(n, w);
      assert s[..w - 1] == Digits(n / 10, w - 1);
    }
  }

  /** Writing back what `DigitsValue` reads, in the same width, gives the digits. */
  lemma {:induction false} DigitsOfDigitsValue(s: string)
    requires AllDigits(s)
    ensures Digits(DigitsValue(s), |s|) == s
  {
    if s != [] {
      var init, last := s[..|s| - 1], s[|s| - 1];
      DigitsOfDigitsValue(init);
      var d := last as int - '0' as int;
      var v := DigitsValue(s);
      assert v == 10 * DigitsValue(init) + d;
      LastDigit(DigitsValue(init), d);
      assert ('0' as int + d) as char == last;
      assert Digits(v, |s|) == Digits(DigitsValue(init), |s| - 1) + [last];
      assert s == init + [last];
    }
  }

  lemma LastDigit(a: nat, d: int)
    requires 0 <= d < 10
    ensures (10 * a + d) / 10 == a && (10 * a + d) % 10 == d
  {
  }

  /** The canonical FORMAT spelling of `t`, the one `Parse` reads back. */
  function Format(t: DateTime): (s: string)
    ensures |s| == 20
  {
    Digits(t.year, 4) + "-" + Digits(t.month, 2) + "-" + Digits(t.day, 2) + "T"
    + Digits(t.hour, 2) + ":" + Digits(t.minute, 2) + ":" + Digits(t.second, 2) + "Z"
  }

  /** The text has the shape `DDDD-DD-DDTDD:DD:DDZ`, D being a decimal digit. */
  predicate Shaped(s: string)
  {
    |s| == 20 && s[4] == '-' && s[7] == '-' && s[10] == 'T' && s[13] == ':' && s[16] == ':' && s[19] == 'Z'
    && AllDigits(s[0..4]) && AllDigits(s[5..7]) && AllDigits(s[8..10])
    && AllDigits(s[11..13]) && AllDigits(s[14..16]) && AllDigits(s[17..19])
  }

  /**
   * `datetime.strptime(s, FORMAT)`, `None` standing for the `ValueError` it raises:
   * the text must have the fixed shape and denote a date and time that exist.
   */
  function Parse(s: string): (r: Option<DateTime>)
    ensures r.Some? ==> Valid(r.value)
  {
    if !Shaped(s) then None
    else
      var t := DateTime(DigitsValue(s[0..4]), DigitsValue(s[5..7]), DigitsValue(s[8..10]),
                        DigitsValue(s[11..13]), DigitsValue(s[14..16]), DigitsValue(s[17..19]));
      if Valid(t) then Some(t) else None
  }

  /** The parser accepts exactly the formatted valid date-times, and gives back the one it was formatted from. */
  lemma ParseExact(s: string, t: DateTime)
    ensures Parse(s) == Some(t) <==> Valid(t) && s == Format(t)
  {
    if Valid(t) && s == Format(t) {
      ParseFormat(t);
    }
    if Parse(s) == Some(t) {
      FormatParse(s);
    }
  }

  lemma ParseFormat(t: DateTime)
    requires Valid(t)
    ensures Parse(Format(t)) == Some(t)
  {
    var s := Format(t);
    assert s[0..4] == Digits(t.year, 4);
    assert s[5..7] == Digits(t.month, 2);
    assert s[8..10] == Digits(t.day, 2);
    assert s[11..13] == Digits(t.hour, 2);
    assert s[14..16] == Digits(t.minute, 2);
    assert s[17..19] == Digits(t.second, 2);
    DigitsValueOfDigits(t.year, 4);
    DigitsValueOfDigits(t.month, 2);
    DigitsValueOfDigits(t.day, 2);
    DigitsValueOfDigits(t.hour, 2);
    DigitsValueOfDigits(t.minute, 2);
    DigitsValueOfDigits(t.second, 2);
  }

  lemma FormatParse(s: string)
    requires Parse(s).Some?
    ensures Format(Parse(s).value) == s
  {
    DigitsOfDigitsValue(s[0..4]);
    DigitsOfDigitsValue(s[5..7]);
    DigitsOfDigitsValue(s[8..10]);
    DigitsOfDigitsValue(s[11..13]);
    DigitsOfDigitsValue(s[14..16]);
    DigitsOfDigitsValue(s[17..19]);
    Reassemble(s);
  }

  /** A 20-character text is its six fields and the characters between them, in order. */
  lemma Reassemble(s: string)
    requires |s| == 20
    ensures s == s[0..4] + [s[4]] + s[5..7] + [s[7]] + s[8..10] + [s[10]]
      + s[11..13] + [s[13]] + s[14..16] + [s[16]] + s[17..19] + [s[19]]
  {
  }

  /** `str(t)`, which is `t.isoformat(" ")`: `YYYY-MM-DD HH:MM:SS` for a value without microseconds. */
  function IsoString(t: DateTime): (s: string)
    ensures |s| == 19
  {
    Digits(t.year, 4) + "-" + Digits(t.month, 2) + "-" + Digits(t.day, 2) + " "
    + Digits(t.hour, 2) + ":" + Digits(t.minute, 2) + ":" + Digits(t.second, 2)
  }

  /** The clock reads 00:00:00. */
  predicate IsMidnight(t: DateTime)
  {
    t.hour == 0 && t.minute == 0 && t.second == 0
  }

  /** The test `str(time)[11:] == "00:00:00"` holds exactly at midnight. */
  lemma MidnightIsStringTest(t: DateTime)
    requires t.hour < 100 && t.minute < 100 && t.second < 100
    ensures IsoString(t)[11..] == "00:00:00" <==> IsMidnight(t)
  {
    var h, m, sec := Digits(t.hour, 2), Digits(t.minute, 2), Digits(t.second, 2);
    var c := IsoString(t)[11..];
    ClockText(t);
    assert Digits(0, 2) == "00";
    if c == "00:00:00" {
      ClockFields(c, h, m, sec);
      DigitsValueOfDigits(t.hour, 2);
      DigitsValueOfDigits(t.minute, 2);
      DigitsValueOfDigits(t.second, 2);
      TwoDigitsValue(h);
      TwoDigitsValue(m);
      TwoDigitsValue(sec);
    }
  }

  /** The clock part of `str(t)`: hour, minute and second, colon-separated. */
  lemma ClockText(t: DateTime)
    ensures IsoString(t)[11..] == Digits(t.hour, 2) + ":" + Digits(t.minute, 2) + ":" + Digits(t.second, 2)
  {
  }

  lemma ClockFields(c: string, h: string, m: string, sec: string)
    requires |h| == 2 && |m| == 2 && |sec| == 2 && c == h + ":" + m + ":" + sec
    ensures h == [c[0], c[1]] && m == [c[3], c[4]] && sec == [c[6], c[7]]
  {
  }

  lemma TwoDigitsValue(x: string)
    requires |x| == 2 && AllDigits(x)
    ensures DigitsValue(x) == 10 * (x[0] as int - '0' as int) + (x[1] as int - '0' as int)
  {
    assert x[..1][..0] == [];
  }

  /** The two texts of a forecast's first interval parse to its start and end. */
  lemma ParseExamples()
    ensures Parse("2023-01-01T00:00:00Z") == Some(DateTime(2023, 1, 1, 0, 0, 0))
    ensures Parse("2023-01-01T01:00:00Z") == Some(DateTime(2023, 1, 1, 1, 0, 0))
  {
    ParseStartExample();
    ParseEndExample();
  }

  lemma ParseStartExample()
    ensures Parse("2023-01-01T00:00:00Z") == Some(DateTime(2023, 1, 1, 0, 0, 0))
  {
    var s := "2023-01-01T00:00:00Z";
    SmallFieldValues();
    FieldsOf(s);
    ParsesTo(s, DateTime(2023, 1, 1, 0, 0, 0));
  }

  lemma ParseEndExample()
    ensures Parse("2023-01-01T01:00:00Z") == Some(DateTime(2023, 1, 1, 1, 0, 0))
  {
    var s := "2023-01-01T01:00:00Z";
    SmallFieldValues();
    FieldsOf(s);
    ParsesTo(s, DateTime(2023, 1, 1, 1, 0, 0));
  }

  /** The six fields of a 20-character text, character by character. */
  lemma FieldsOf(s: string)
    requires |s| == 20
    ensures s[0..4] == [s[0], s[1], s[2], s[3]]
    ensures s[5..7] == [s[5], s[6]] && s[8..10] == [s[8], s[9]] && s[11..13] == [s[11], s[12]]
    ensures s[14..16] == [s[14], s[15]] && s[17..19] == [s[17], s[18]]
  {
  }

  /** A text of the right shape whose six fields denote the fields of a valid `t` parses to `t`. */
  lemma ParsesTo(s: string, t: DateTime)
    requires Shaped(s) && Valid(t)
    requires DigitsValue(s[0..4]) == t.year && DigitsValue(s[5..7]) == t.month && DigitsValue(s[8..10]) == t.day
    requires DigitsValue(s[11..13]) == t.hour && DigitsValue(s[14..16]) == t.minute && DigitsValue(s[17..19]) == t.second
    ensures Parse(s) == Some(t)
  {
  }

  lemma SmallFieldValues()
    ensures AllDigits("00") && DigitsValue("00") == 0
    ensures AllDigits("01") && DigitsValue("01") == 1
    ensures AllDigits("2023") && DigitsValue("2023") == 2023
  {
    assert "00"[..1] == "0" && "01"[..1] == "0";
    assert DigitsValue("0") == 0 && DigitsValue("2") == 2;
    assert "20"[..1] == "2";
    assert DigitsValue("20") == 20;
    assert "202"[..2] == "20";
    assert DigitsValue("202") == 202;
    assert "2023"[..3] == "202";
  }

  /** Text that is not a date, and a well-shaped date that does not exist, are refused. */
  lemma ParseRejects()
    ensures Parse("not-a-date") == None
    ensures Parse("2023-02-29T00:00:00Z") == None
  {
    var s := "2023-02-29T00:00:00Z";
    SmallFieldValues();
    FieldsOf(s);
    assert "02"[..1] == "0" && "29"[..1] == "2";
    assert DigitsValue("02") == 2;
    assert DigitsValue("29") == 29;
    assert !IsLeapYear(2023);
  }
}
