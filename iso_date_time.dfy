/** `LocalDateTime.parse(text, DateTimeFormatter.ISO_DATE_TIME)`: the ISO-8601
    local date-time `uuuu-MM-dd'T'HH:mm[:ss[.fffffffff]]`, optionally followed
    by an offset that is read and then dropped. Dates and times are checked
    strictly (month lengths, leap years, 0-23 hours, 0-59 minutes and seconds).
    Values are kept to the second. */
module IsoDateTime {
  import opened Wrappers
  import opened Text
  import opened Fhir

  datatype LocalDateTime = LocalDateTime(year: int, month: int, day: int, hour: int, minute: int, second: int)

  predicate IsLeap(y: int) {
    y % 4 == 0 && (y % 100 != 0 || y % 400 == 0)
  }

  function DaysInMonth(y: int, m: int): int {
    if m == 2 then (if IsLeap(y) then 29 else 28)
    else if m == 4 || m == 6 || m == 9 || m == 11 then 30
    else 31
  }

  /** A date and time the strict resolver accepts, with a four-digit year. */
  predicate Valid(dt: LocalDateTime) {
    0 <= dt.year <= 9999 && 1 <= dt.month <= 12 && 1 <= dt.day <= DaysInMonth(dt.year, dt.month) &&
    0 <= dt.hour <= 23 && 0 <= dt.minute <= 59 && 0 <= dt.second <= 59
  }

  /** Days from 1970-01-01 to the given proleptic Gregorian date. */
  function DaysFromCivil(y: int, m: int, d: int): int {
    var y' := if m <= 2 then y - 1 else y;
    var era := y' / 400;
    var yoe := y' - era * 400;
    var mp := if m > 2 then m - 3 else m + 9;
    var doy := (153 * mp + 2) / 5 + d - 1;
    var doe := yoe * 365 + yoe / 4 - yoe / 100 + doy;
    era * 146097 + doe - 719468
  }

  lemma EpochIsDayZero()
    ensures DaysFromCivil(1970, 1, 1) == 0
  {
  }

  function SecondOfDay(dt: LocalDateTime): int {
    dt.hour * 3600 + dt.minute * 60 + dt.second
  }

  /** The date-time as seconds on the local time line. */
  function ToTime(dt: LocalDateTime): (t: Time)
    requires Valid(dt)
    ensures DayOf(t) == DaysFromCivil(dt.year, dt.month, dt.day)
    ensures t - DayOf(t) * SecondsPerDay == SecondOfDay(dt)
  {
    var days := DaysFromCivil(dt.year, dt.month, dt.day);
    var t := days * SecondsPerDay + SecondOfDay(dt);
    assert 0 <= SecondOfDay(dt) < SecondsPerDay;
    assert days * SecondsPerDay <= t < (days + 1) * SecondsPerDay;
    DayOfUnique(t, days);
    t
  }

  /** The calendar day of an instant is the only `d` whose day span contains it. */
  lemma DayOfUnique(t: Time, d: int)
    requires d * SecondsPerDay <= t < (d + 1) * SecondsPerDay
    ensures DayOf(t) == d
  {
  }

  /** The value of `w` digits starting at `i`, if they are all ASCII digits. */
  function Fixed(s: string, i: nat, w: nat): (r: Option<nat>)
    requires i + w <= |s|
    ensures r.Some? <==> forall k :: i <= k < i + w ==> IsDigit(s[k])
  {
    if forall k :: i <= k < i + w ==> IsDigit(s[k]) then
      Some(DigitsValue(s[i..i + w]))
    else None
  }

  /** The number of leading ASCII digits of `s`, at most `max`. */
  function DigitRun(s: string, max: nat): (n: nat)
    ensures n <= max && n <= |s|
    ensures forall k :: 0 <= k < n ==> IsDigit(s[k])
    ensures n < max && n < |s| ==> !IsDigit(s[n])
  {
    if max == 0 || s == [] || !IsDigit(s[0]) then 0
    else
      var n := DigitRun(s[1..], max - 1);
      assert forall k :: 1 <= k < n + 1 ==> s[k] == s[1..][k - 1];
      n + 1
  }

  /** The optional `:ss` and `.fffffffff` of the time; the second and the text after it. */
  function SecondsPart(t: string): (r: (nat, string))
    ensures |r.1| <= |t|
  {
    if |t| >= 3 && t[0] == ':' && IsDigit(t[1]) && IsDigit(t[2]) then
      var second := Fixed(t, 1, 2).value;
      var after := t[3..];
      if after != [] && after[0] == '.' then
        (second, after[1 + DigitRun(after[1..], 9)..])
      else
        (second, after)
    else
      (0, t)
  }

  predicate OffsetHours(s: string, i: nat)
    requires i + 2 <= |s|
  {
    Fixed(s, i, 2).Some? && Fixed(s, i, 2).value <= 18
  }

  predicate Sixty(s: string, i: nat)
    requires i + 2 <= |s|
  {
    Fixed(s, i, 2).Some? && Fixed(s, i, 2).value <= 59
  }

  /** What may follow the time: nothing, `Z` (in either case), or `+HH:MM` or
      `+HH:MM:ss` with either sign, at most eighteen hours. */
  predicate OffsetOrEnd(s: string) {
    if s == [] then true
    else if s == "Z" || s == "z" then true
    else if (s[0] == '+' || s[0] == '-') && (|s| == 6 || |s| == 9) && s[3] == ':' &&
            OffsetHours(s, 1) && Sixty(s, 4) && (|s| == 9 ==> s[6] == ':' && Sixty(s, 7)) then
      var total := Fixed(s, 1, 2).value * 3600 + Fixed(s, 4, 2).value * 60 +
        (if |s| == 9 then Fixed(s, 7, 2).value else 0);
      total <= 18 * 3600
    else false
  }

  /** The parse; `None` where the JDK throws `DateTimeParseException`. */
  function Parse(s: string): (r: Option<LocalDateTime>)
    ensures r.Some? ==> Valid(r.value)
    ensures r.Some? ==> |s| >= 16 && (s[10] == 'T' || s[10] == 't') && OffsetOrEnd(SecondsPart(s[16..]).1)
  {
    if |s| < 16 || s[4] != '-' || s[7] != '-' || (s[10] != 'T' && s[10] != 't') || s[13] != ':' then None
    else
      var year, month, day := Fixed(s, 0, 4), Fixed(s, 5, 2), Fixed(s, 8, 2);
      var hour, minute := Fixed(s, 11, 2), Fixed(s, 14, 2);
      if year.None? || month.None? || day.None? || hour.None? || minute.None? then None
      else
        var (second, rest) := SecondsPart(s[16..]);
        var dt := LocalDateTime(year.value, month.value, day.value, hour.value, minute.value, second);
        if OffsetOrEnd(rest) && Valid(dt) then Some(dt) else None
  }

  /** After the minutes only the seconds, the fraction or an offset may
      follow; a second `T` there leaves unparsed text. */
  lemma TIsNotAnOffset(s: string)
    requires |s| > 16 && s[16] == 'T'
    ensures Parse(s).None?
  {
    assert SecondsPart(s[16..]) == (0, s[16..]);
    assert !OffsetOrEnd(s[16..]);
  }

  /** `n` written with exactly `w` digits, zero-padded. */
  function Pad(n: nat, w: nat): (r: string)
    ensures |r| == w
    ensures forall k :: 0 <= k < w ==> IsDigit(r[k])
  {
    if w == 0 then [] else Pad(n / 10, w - 1) + [DigitChar(n % 10)]
  }

  function Pow10(w: nat): nat {
    if w == 0 then 1 else 10 * Pow10(w - 1)
  }

  lemma {:induction false} PadValue(n: nat, w: nat)
    requires n < Pow10(w)
    ensures DigitsValue(Pad(n, w)) == n
  {
    if w > 0 {
      PadValue(n / 10, w - 1);
      var r := Pad(n, w);
      assert r[..|r| - 1] == Pad(n / 10, w - 1);
    }
  }

  /** Reading back `w` zero-padded digits placed at position `i`. */
  lemma FixedPad(s: string, i: nat, n: nat, w: nat)
    requires n < Pow10(w) && i + w <= |s| && s[i..i + w] == Pad(n, w)
    ensures Fixed(s, i, w) == Some(n)
  {
    assert forall k :: i <= k < i + w ==> s[k] == s[i..i + w][k - i];
    PadValue(n, w);
  }

  /** `uuuu-MM-dd`. */
  function FormatDate(y: nat, m: nat, d: nat): (r: string)
    ensures |r| == 10
  {
    Pad(y, 4) + "-" + Pad(m, 2) + "-" + Pad(d, 2)
  }

  /** `uuuu-MM-dd'T'HH:mm:ss`, the form `LocalDateTime.toString()` gives a
      whole-second time whose seconds are not zero. */
  function Format(dt: LocalDateTime): (r: string)
    requires Valid(dt)
    ensures |r| == 19
  {
    FormatDate(dt.year, dt.month, dt.day) + "T" + Pad(dt.hour, 2) + ":" + Pad(dt.minute, 2) + ":" + Pad(dt.second, 2)
  }

  /** Parsing what `Format` writes gives back the same date and time. */
  lemma ParseFormat(dt: LocalDateTime)
    requires Valid(dt)
    ensures Parse(Format(dt)) == Some(dt)
  {
    var s := Format(dt);
    assert s[0..4] == Pad(dt.year, 4);
    assert s[5..7] == Pad(dt.month, 2);
    assert s[8..10] == Pad(dt.day, 2);
    assert s[11..13] == Pad(dt.hour, 2);
    assert s[14..16] == Pad(dt.minute, 2);
    var t := s[16..];
    assert t == ":" + Pad(dt.second, 2);
    assert t[1..3] == Pad(dt.second, 2);
    assert Pow10(4) == 10000 && Pow10(2) == 100;
    FixedPad(s, 0, dt.year, 4);
    FixedPad(s, 5, dt.month, 2);
    FixedPad(s, 8, dt.day, 2);
    FixedPad(s, 11, dt.hour, 2);
    FixedPad(s, 14, dt.minute, 2);
    FixedPad(t, 1, dt.second, 2);
    assert t[3..] == [];
  }

  /** A date alone, with midnight appended as `parseDateTime` does, parses to
      the start of that day. */
  lemma ParseDateAtMidnight(y: nat, m: nat, d: nat)
    requires Valid(LocalDateTime(y, m, d, 0, 0, 0))
    ensures Parse(FormatDate(y, m, d) + "T00:00:00") == Some(LocalDateTime(y, m, d, 0, 0, 0))
  {
    var dt := LocalDateTime(y, m, d, 0, 0, 0);
    assert Pad(0, 2) == "00";
    assert Format(dt) == FormatDate(y, m, d) + "T00:00:00";
    ParseFormat(dt);
  }
}
