/** The JavaScript values the front end handles, with the three comparisons its code relies on:
    truthiness (`if (x)`, `x || y`), strict equality `===` and loose equality `==` against a
    boolean, plus what `dayjs(x)` makes of a field value. */
module JsValue {
  import opened Wrappers
  import opened Dates

  /** `Day` is a dayjs object (what a DatePicker holds); `Day(None)` is an invalid one. */
  datatype Value =
    | Undefined
    | Null
    | Bool(b: bool)
    | Num(n: int)
    | Str(s: string)
    | Day(date: Option<Date>)

  /** A plain JavaScript object (a record from the backend, a form's values). */
  type Object = map<string, Value>

  /** `o[key]`: a missing key reads as `undefined`. */
  function Get(o: Object, key: string): (v: Value)
    ensures key !in o ==> v == Undefined
    ensures key in o ==> v == o[key]
  {
    if key in o then o[key] else Undefined
  }

  predicate Truthy(v: Value) {
    match v
    case Undefined => false
    case Null => false
    case Bool(b) => b
    case Num(n) => n != 0
    case Str(s) => s != ""
    case Day(_) => true
  }

  /** `a || b`: `a` when it is truthy, otherwise `b`. */
  function Or(a: Value, b: Value): (r: Value)
    ensures Truthy(a) ==> r == a
    ensures !Truthy(a) ==> r == b
  {
    if Truthy(a) then a else b
  }

  /** `a === b`. Objects compare by identity; a dayjs object is never the value it is compared
      with here, so `Day` values are never strictly equal to anything. */
  predicate StrictEquals(a: Value, b: Value) {
    !a.Day? && a == b
  }

  /** `Number(s)` for the strings this model distinguishes: the empty string is 0, a string of
      decimal digits is its number, anything else is `NaN` (`None`). */
  function StringToNumber(s: string): (r: Option<nat>)
    ensures s == "" ==> r == Some(0)
    ensures r.Some? && s != "" ==> IsDigits(s) && Digits(r.value, |s|) == s
  {
    if s == "" then Some(0)
    else if IsDigits(s) then
      DigitsOfParseDigits(s);
      Some(ParseDigits(s))
    else None
  }

  /** `v == b` with `b` a boolean: the boolean becomes the number 1 or 0 and the other side is
      converted to a number; `null` and `undefined` equal no boolean. A dayjs object converts to
      its millisecond timestamp, which this model treats as never 0 or 1. */
  predicate LooseEqualsBool(v: Value, b: bool) {
    var n := if b then 1 else 0;
    match v
    case Undefined => false
    case Null => false
    case Bool(x) => x == b
    case Num(m) => m == n
    case Str(s) => StringToNumber(s) == Some(n)
    case Day(_) => false
  }

  /** On boolean values loose equality is plain equality. */
  lemma LooseEqualsOnBooleans(x: bool, b: bool)
    ensures LooseEqualsBool(Bool(x), b) <==> Bool(x) == Bool(b)
    ensures LooseEqualsBool(Bool(x), b) <==> StrictEquals(Bool(x), Bool(b))
  {
  }

  /** No value is loosely equal to both `true` and `false`, and `null`/`undefined` to neither. */
  lemma {:induction false} LooseEqualsExclusive(v: Value)
    ensures !(LooseEqualsBool(v, true) && LooseEqualsBool(v, false))
    ensures v == Null || v == Undefined ==> !LooseEqualsBool(v, true) && !LooseEqualsBool(v, false)
  {
  }

  /** Where loose and strict equality part ways: `1`, `"1"` and `"01"` are `== true`, and `0`,
      `""` and `"0"` are `== false`, though none of them is `===` to a boolean. */
  lemma LooseEqualsExamples()
    ensures LooseEqualsBool(Num(1), true) && !StrictEquals(Num(1), Bool(true))
    ensures LooseEqualsBool(Str("1"), true) && LooseEqualsBool(Str("01"), true)
    ensures LooseEqualsBool(Num(0), false) && LooseEqualsBool(Str(""), false)
    ensures LooseEqualsBool(Str("0"), false) && !LooseEqualsBool(Str("true"), true)
  {
    assert IsDigits("1") && IsDigits("01") && IsDigits("0");
    assert "01"[..1] == "0" && ParseDigits("0") == 0;
    assert ParseDigits("01") == 1 && ParseDigits("1") == 1;
    assert !IsDigit('t');
  }

  // ---------------------------------------------------------------- dayjs

  /** `dayjs(v)` for a defined `v`: a date string is parsed, a dayjs object is cloned, and
      anything else is an invalid date. */
  function DateOf(v: Value): (d: Option<Date>)
    ensures v.Str? ==> d == Parse(v.s)
    ensures v.Day? ==> d == v.date
    ensures !v.Str? && !v.Day? ==> d.None?
  {
    match v
    case Str(s) => Parse(s)
    case Day(d) => d
    case _ => None
  }

  /** `.format('YYYY-MM-DD')` of a dayjs object. */
  function FormatDay(d: Option<Date>): (s: string)
    ensures d.Some? ==> s == Format(d.value)
    ensures d.None? ==> s == InvalidDate
  {
    if d.Some? then Format(d.value) else InvalidDate
  }

  /** `dayjs(v).format('YYYY-MM-DD')`; `dayjs(undefined)` is the current moment `now`. */
  function DayjsText(v: Value, now: Date): (s: string)
    ensures v == Undefined ==> s == Format(now)
    ensures v != Undefined ==> s == FormatDay(DateOf(v))
  {
    if v == Undefined then Format(now) else FormatDay(DateOf(v))
  }

  /** For a date string, the dayjs text is the date part of the string when it parses and
      "Invalid Date" otherwise; a `null` is always "Invalid Date". */
  lemma DayjsTextOfString(s: string, now: Date)
    ensures Parse(s).Some? ==> DayjsText(Str(s), now) == s[..10]
    ensures Parse(s).None? ==> DayjsText(Str(s), now) == InvalidDate
    ensures DayjsText(Null, now) == InvalidDate
  {
  }
}
