/** Calendar dates at day granularity: the fixed-width `YYYY-MM-DD` text that the front end and
    the backend exchange, day numbers for counting days, and the order in which JavaScript
    compares strings, character by character (here a character is a Unicode code point). The main result, `FormatOrder`, is that on
    `YYYY-MM-DD` text the string order is the chronological order. */
module Dates {
  import opened Wrappers

  datatype Date = Date(year: nat, month: nat, day: nat)

  predicate IsLeapYear(y: nat) {
    (y % 4 == 0 && y % 100 != 0) || y % 400 == 0
  }

  function DaysInMonth(y: nat, m: nat): nat
    requires 1 <= m <= 12
  {
    if m == 2 then (if IsLeapYear(y) then 29 else 28)
    else if m == 4 || m == 6 || m == 9 || m == 11 then 30
    else 31
  }

  /** A date a four-digit year can spell, with a real month and day. */
  predicate ValidDate(d: Date) {
    d.year <= 9999 && 1 <= d.month <= 12 && 1 <= d.day <= DaysInMonth(d.year, d.month)
  }

  /** Strict chronological order. */
  predicate Precedes(a: Date, b: Date) {
    a.year < b.year
    || (a.year == b.year && (a.month < b.month || (a.month == b.month && a.day < b.day)))
  }

  // ---------------------------------------------------------------- day numbers

  function DaysInYear(y: nat): nat {
    if IsLeapYear(y) then 366 else 365
  }

  function DaysBeforeYear(y: nat): nat {
    if y == 0 then 0 else DaysBeforeYear(y - 1) + DaysInYear(y - 1)
  }

  /** Days of year `y` before the first of month `m` (`m == 13` gives the whole year). */
  function DaysBeforeMonth(y: nat, m: nat): nat
    requires 1 <= m <= 13
  {
    var common := [0, 31, 59, 90, 120, 151, 181, 212, 243, 273, 304, 334, 365][m - 1];
    if m > 2 && IsLeapYear(y) then common + 1 else common
  }

  /** Days since 0000-01-01 (proleptic Gregorian calendar). */
  function DayNumber(d: Date): nat
    requires ValidDate(d)
  {
    DaysBeforeYear(d.year) + DaysBeforeMonth(d.year, d.month) + d.day - 1
  }

  lemma DaysBeforeMonthStep(y: nat, m: nat)
    requires 1 <= m <= 12
    ensures DaysBeforeMonth(y, m + 1) == DaysBeforeMonth(y, m) + DaysInMonth(y, m)
    ensures DaysBeforeMonth(y, 13) == DaysInYear(y)
  {
  }

  lemma {:induction false} DaysBeforeMonthMonotone(y: nat, m: nat, m': nat)
    requires 1 <= m < m' <= 13
    ensures DaysBeforeMonth(y, m) + DaysInMonth(y, m) <= DaysBeforeMonth(y, m')
    decreases m' - m
  {
    DaysBeforeMonthStep(y, m);
    if m + 1 < m' {
      DaysBeforeMonthMonotone(y, m + 1, m');
    }
  }

  lemma {:induction false} DaysBeforeYearMonotone(y: nat, y': nat)
    requires y < y'
    ensures DaysBeforeYear(y) + DaysInYear(y) <= DaysBeforeYear(y')
    decreases y'
  {
    if y + 1 < y' {
      DaysBeforeYearMonotone(y, y' - 1);
    }
  }

  /** A date's day number lies inside its year. */
  lemma DayNumberInYear(d: Date)
    requires ValidDate(d)
    ensures DaysBeforeYear(d.year) <= DayNumber(d) < DaysBeforeYear(d.year) + DaysInYear(d.year)
  {
    DaysBeforeMonthStep(d.year, d.month);
    if d.month < 12 {
      DaysBeforeMonthMonotone(d.year, d.month + 1, 13);
    }
  }

  /** Day numbers are strictly increasing in time. */
  lemma DayNumberIncreasing(a: Date, b: Date)
    requires ValidDate(a) && ValidDate(b) && Precedes(a, b)
    ensures DayNumber(a) < DayNumber(b)
  {
    if a.year < b.year {
      DayNumberInYear(a);
      DayNumberInYear(b);
      DaysBeforeYearMonotone(a.year, b.year);
    } else if a.month < b.month {
      DaysBeforeMonthMonotone(a.year, a.month, b.month);
    }
  }

  /** Day numbers order dates exactly as time does, and tell dates apart. */
  lemma DayNumberOrder(a: Date, b: Date)
    requires ValidDate(a) && ValidDate(b)
    ensures DayNumber(a) < DayNumber(b) <==> Precedes(a, b)
    ensures DayNumber(a) == DayNumber(b) <==> a == b
  {
    if Precedes(a, b) {
      DayNumberIncreasing(a, b);
    } else if Precedes(b, a) {
      DayNumberIncreasing(b, a);
    }
  }

  // ---------------------------------------------------------------- JavaScript string order

  /** JavaScript `s < t` on strings: the first differing character decides, and a proper
      prefix is smaller. JavaScript compares UTF-16 code units; this compares code points,
      which orders the same on every text without characters above U+FFFF, such as the
      ASCII date texts. */
  predicate StrLt(s: string, t: string) {
    if s == [] then t != []
    else if t == [] then false
    else if s[0] != t[0] then s[0] < t[0]
    else StrLt(s[1..], t[1..])
  }

  /** JavaScript `s <= t` on strings, which is `!(t < s)`. */
  predicate StrLe(s: string, t: string) {
    !StrLt(t, s)
  }

  lemma {:induction false} StrLtTrichotomy(s: string, t: string)
    ensures StrLt(s, t) || s == t || StrLt(t, s)
    ensures !(StrLt(s, t) && StrLt(t, s))
    ensures !StrLt(s, s)
  {
    if s != [] && t != [] && s[0] == t[0] {
      StrLtTrichotomy(s[1..], t[1..]);
      assert s == [s[0]] + s[1..];
      assert t == [t[0]] + t[1..];
    }
    if s != [] {
      StrLtTrichotomy(s[1..], s[1..]);
    }
  }

  /** `<=` on strings is "less or equal". */
  lemma StrLeMeans(s: string, t: string)
    ensures StrLe(s, t) <==> StrLt(s, t) || s == t
  {
    StrLtTrichotomy(s, t);
  }

  lemma {:induction false} StrLtTransitive(s: string, t: string, u: string)
    requires StrLt(s, t) && StrLt(t, u)
    ensures StrLt(s, u)
  {
    if s != [] && t != [] && u != [] && s[0] == t[0] && t[0] == u[0] {
      StrLtTransitive(s[1..], t[1..], u[1..]);
    }
  }

  /** Comparing two concatenations whose first halves have the same length compares the first
      halves, and the second halves when the first halves agree. */
  lemma {:induction false} StrLtConcat(s1: string, t1: string, s2: string, t2: string)
    requires |s1| == |s2|
    ensures StrLt(s1 + t1, s2 + t2) <==> StrLt(s1, s2) || (s1 == s2 && StrLt(t1, t2))
    ensures s1 + t1 == s2 + t2 <==> s1 == s2 && t1 == t2
  {
    if s1 != [] {
      assert (s1 + t1)[0] == s1[0] && (s2 + t2)[0] == s2[0];
      assert (s1 + t1)[1..] == s1[1..] + t1;
      assert (s2 + t2)[1..] == s2[1..] + t2;
      StrLtConcat(s1[1..], t1, s2[1..], t2);
      if s1[0] == s2[0] {
        assert s1 == [s1[0]] + s1[1..] && s2 == [s2[0]] + s2[1..];
      }
      if s1 + t1 == s2 + t2 {
        assert s1[0] == (s1 + t1)[0];
      }
    } else {
      assert s2 == [];
      assert s1 + t1 == t1 && s2 + t2 == t2;
    }
  }

  // ---------------------------------------------------------------- fixed-width digits

  predicate IsDigit(c: char) {
    '0' <= c <= '9'
  }

  predicate IsDigits(s: string) {
    forall i :: 0 <= i < |s| ==> IsDigit(s[i])
  }

  function Pow10(w: nat): (r: nat)
    ensures r >= 1
  {
    if w == 0 then 1 else 10 * Pow10(w - 1)
  }

  function DigitChar(k: nat): (c: char)
    requires k < 10
    ensures IsDigit(c)
  {
    (48 + k) as char
  }

  function DigitValue(c: char): (k: nat)
    requires IsDigit(c)
    ensures k < 10 && DigitChar(k) == c
  {
    c as int - 48
  }

  /** The last `width` decimal digits of `n`, zero-padded: dayjs's `YYYY`, `MM` and `DD`. */
  function Digits(n: nat, width: nat): (s: string)
    ensures |s| == width && IsDigits(s)
  {
    if width == 0 then "" else Digits(n / 10, width - 1) + [DigitChar(n % 10)]
  }

  /** The number a string of decimal digits spells. */
  function ParseDigits(s: string): nat
    requires IsDigits(s)
  {
    if s == [] then 0 else 10 * ParseDigits(s[..|s| - 1]) + DigitValue(s[|s| - 1])
  }

  lemma {:induction false} ParseDigitsOfDigits(n: nat, w: nat)
    requires n < Pow10(w)
    ensures ParseDigits(Digits(n, w)) == n
  {
    if w > 0 {
      var s := Digits(n, w);
      assert s[..w - 1] == Digits(n / 10, w - 1);
      ParseDigitsOfDigits(n / 10, w - 1);
    }
  }

  lemma {:induction false} DigitsOfParseDigits(s: string)
    requires IsDigits(s)
    ensures ParseDigits(s) < Pow10(|s|)
    ensures Digits(ParseDigits(s), |s|) == s
  {
    if s != [] {
      var init := s[..|s| - 1];
      DigitsOfParseDigits(init);
      var n := ParseDigits(s);
      assert n / 10 == ParseDigits(init) && n % 10 == DigitValue(s[|s| - 1]);
      assert s == init + [s[|s| - 1]];
    }
  }

  /** Fixed-width digit strings compare as strings exactly as their numbers compare. */
  lemma {:induction false} DigitsOrder(a: nat, b: nat, w: nat)
    requires a < Pow10(w) && b < Pow10(w)
    ensures StrLt(Digits(a, w), Digits(b, w)) <==> a < b
    ensures Digits(a, w) == Digits(b, w) <==> a == b
  {
    ParseDigitsOfDigits(a, w);
    ParseDigitsOfDigits(b, w);
    if w > 0 {
      DigitsOrder(a / 10, b / 10, w - 1);
      StrLtConcat(Digits(a / 10, w - 1), [DigitChar(a % 10)], Digits(b / 10, w - 1), [DigitChar(b % 10)]);
    }
  }

  // ---------------------------------------------------------------- YYYY-MM-DD text

  /** dayjs's `format('YYYY-MM-DD')` of a date. */
  function Format(d: Date): (s: string)
    ensures |s| == 10 && s[4] == '-' && s[7] == '-'
  {
    Digits(d.year, 4) + "-" + Digits(d.month, 2) + "-" + Digits(d.day, 2)
  }

  /** What dayjs's `format` gives for an invalid date. */
  const InvalidDate: string := "Invalid Date"

  /** `s` starts with `YYYY-MM-DD`, followed by nothing or by a time of day after `T` or a space. */
  predicate IsDateText(s: string) {
    && |s| >= 10 && (|s| == 10 || s[10] == 'T' || s[10] == ' ')
    && IsDigits(s[0..4]) && s[4] == '-' && IsDigits(s[5..7]) && s[7] == '-' && IsDigits(s[8..10])
  }

  function DateOfText(s: string): Date
    requires IsDateText(s)
  {
    Date(ParseDigits(s[0..4]), ParseDigits(s[5..7]), ParseDigits(s[8..10]))
  }

  lemma FormatDateOfText(s: string)
    requires IsDateText(s)
    ensures Format(DateOfText(s)) == s[..10]
  {
    DigitsOfParseDigits(s[0..4]);
    DigitsOfParseDigits(s[5..7]);
    DigitsOfParseDigits(s[8..10]);
    assert s[..10] == s[0..4] + "-" + s[5..7] + "-" + s[8..10];
  }

  /** Reads the `YYYY-MM-DD` at the start of `s`; the time of day that may follow is ignored.
      A malformed text or a day the calendar does not have gives `None`. */
  function Parse(s: string): (r: Option<Date>)
    ensures r.Some? ==> ValidDate(r.value) && |s| >= 10 && Format(r.value) == s[..10]
  {
    if IsDateText(s) && ValidDate(DateOfText(s)) then
      FormatDateOfText(s);
      Some(DateOfText(s))
    else None
  }

  /** Reading the text of a valid date gives the date back. */
  lemma ParseFormat(d: Date)
    requires ValidDate(d)
    ensures Parse(Format(d)) == Some(d)
  {
    var s := Format(d);
    assert s[0..4] == Digits(d.year, 4);
    assert s[5..7] == Digits(d.month, 2);
    assert s[8..10] == Digits(d.day, 2);
    ParseDigitsOfDigits(d.year, 4);
    ParseDigitsOfDigits(d.month, 2);
    ParseDigitsOfDigits(d.day, 2);
  }

  /** On `YYYY-MM-DD` text, JavaScript's string order is the chronological order. */
  lemma FormatOrder(a: Date, b: Date)
    requires ValidDate(a) && ValidDate(b)
    ensures StrLt(Format(a), Format(b)) <==> Precedes(a, b)
    ensures Format(a) == Format(b) <==> a == b
  {
    var ya, ma, da := Digits(a.year, 4), Digits(a.month, 2), Digits(a.day, 2);
    var yb, mb, db := Digits(b.year, 4), Digits(b.month, 2), Digits(b.day, 2);
    DigitsOrder(a.year, b.year, 4);
    DigitsOrder(a.month, b.month, 2);
    DigitsOrder(a.day, b.day, 2);
    StrLtConcat(ya + "-" + ma + "-", da, yb + "-" + mb + "-", db);
    StrLtConcat(ya + "-" + ma, "-", yb + "-" + mb, "-");
    StrLtConcat(ya + "-", ma, yb + "-", mb);
    StrLtConcat(ya, "-", yb, "-");
    StrLtTrichotomy("-", "-");
  }

  /** The same, for `<=` against day numbers: what comparing dates by their text decides. */
  lemma FormatLeDayNumber(a: Date, b: Date)
    requires ValidDate(a) && ValidDate(b)
    ensures StrLe(Format(a), Format(b)) <==> DayNumber(a) <= DayNumber(b)
  {
    FormatOrder(a, b);
    FormatOrder(b, a);
    StrLtTrichotomy(Format(a), Format(b));
    DayNumberOrder(a, b);
  }

  /** "Invalid Date" sorts after the text of every date, since 'I' comes after every digit. */
  lemma InvalidDateAfterEveryDate(d: Date)
    ensures StrLt(Format(d), InvalidDate)
    ensures !StrLe(InvalidDate, Format(d))
  {
    var s := Format(d);
    assert IsDigit(s[0]);
    StrLtTrichotomy(s, InvalidDate);
  }
}
