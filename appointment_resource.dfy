/** The search parameters of the Appointment endpoint turned into criteria,
    in particular the `date` parameter with its `ge`/`le`/`gt`/`lt` prefixes. */
module AppointmentResource {
  import opened Wrappers
  import opened Text
  import opened Fhir
  import IsoDateTime
  import opened AppointmentService

  /** The text `parseDateTime` hands to the ISO parser. */
  function DateTimeText(token: string): (text: string)
    ensures Contains(token, "T") ==> text == token
    ensures !Contains(token, "T") ==> text == token + "T00:00:00"
  {
    if Contains(token, "T") then token else token + "T00:00:00"
  }

  /** `parseDateTime`: a token containing an upper-case `T` is parsed as it is,
      any other token has `T00:00:00` appended; whatever fails to parse becomes
      the current time `now`. */
  function ParseDateTime(token: string, now: Time): (t: Time)
    ensures IsoDateTime.Parse(DateTimeText(token)).None? ==> t == now
  {
    match IsoDateTime.Parse(DateTimeText(token))
    case Some(dt) => IsoDateTime.ToTime(dt)
    case None => now
  }

  /** `withHour(0).withMinute(0).withSecond(0)`. */
  function StartOfDay(t: Time): (r: Time)
    ensures DayOf(r) == DayOf(t) && r <= t
    ensures forall u :: DayOf(u) == DayOf(t) ==> r <= u
  {
    DayOf(t) * SecondsPerDay
  }

  /** `withHour(23).withMinute(59).withSecond(59)`. */
  function EndOfDay(t: Time): (r: Time)
    ensures DayOf(r) == DayOf(t) && t <= r
    ensures forall u :: DayOf(u) == DayOf(t) ==> u <= r
  {
    var r := DayOf(t) * SecondsPerDay + SecondsPerDay - 1;
    IsoDateTime.DayOfUnique(r, DayOf(t));
    r
  }

  /** A token starts with at most one of the four range prefixes. */
  lemma PrefixesDistinct(date: string)
    ensures StartsWith(date, "ge") ==> !StartsWith(date, "le") && !StartsWith(date, "gt") && !StartsWith(date, "lt")
    ensures StartsWith(date, "le") ==> !StartsWith(date, "gt") && !StartsWith(date, "lt")
    ensures StartsWith(date, "gt") ==> !StartsWith(date, "lt")
  {
    if |date| >= 2 {
      assert StartsWith(date, "ge") ==> date[0] == 'g' && date[1] == 'e';
      assert StartsWith(date, "le") ==> date[0] == 'l' && date[1] == 'e';
      assert StartsWith(date, "gt") ==> date[0] == 'g' && date[1] == 't';
      assert StartsWith(date, "lt") ==> date[0] == 'l' && date[1] == 't';
    }
  }

  /** `parseDateParameter`: the date bounds of the criteria. */
  function ParseDateParameter(date: string, now: Time): (r: (Option<Time>, Option<Time>))
    ensures StartsWith(date, "ge") ==> r == (Some(ParseDateTime(date[2..], now)), None)
    ensures StartsWith(date, "le") ==> r == (None, Some(ParseDateTime(date[2..], now)))
    ensures StartsWith(date, "gt") ==> r == (Some(ParseDateTime(date[2..], now) + SecondsPerDay), None)
    ensures StartsWith(date, "lt") ==> r == (None, Some(ParseDateTime(date[2..], now) - SecondsPerDay))
    ensures !StartsWith(date, "ge") && !StartsWith(date, "le") && !StartsWith(date, "gt") && !StartsWith(date, "lt") ==>
      r.0.Some? && r.1.Some? &&
      forall u :: r.0.value <= u <= r.1.value <==> DayOf(u) == DayOf(ParseDateTime(date, now))
  {
    PrefixesDistinct(date);
    if StartsWith(date, "ge") then (Some(ParseDateTime(date[2..], now)), None)
    else if StartsWith(date, "le") then (None, Some(ParseDateTime(date[2..], now)))
    else if StartsWith(date, "gt") then (Some(ParseDateTime(date[2..], now) + SecondsPerDay), None)
    else if StartsWith(date, "lt") then (None, Some(ParseDateTime(date[2..], now) - SecondsPerDay))
    else
      var t := ParseDateTime(date, now);
      var start, end := StartOfDay(t), EndOfDay(t);
      assert forall u :: start <= u <= end ==> DayOf(u) == DayOf(t) by {
        forall u | start <= u <= end ensures DayOf(u) == DayOf(t) {
          IsoDateTime.DayOfUnique(u, DayOf(t));
        }
      }
      (Some(start), Some(end))
  }

  /** The criteria `search` assembles: the string parameters copied unchanged,
      the date bounds only for a non-empty `date`. */
  function SearchCriteria(identifier: Option<string>, patient: Option<string>, practitioner: Option<string>,
                          status: Option<string>, date: Option<string>, specialty: Option<string>, now: Time): (c: Criteria)
    ensures c.identifier == identifier && c.patient == patient && c.practitioner == practitioner
    ensures c.status == status && c.specialty == specialty
    ensures !Given(date) ==> c.dateStart.None? && c.dateEnd.None?
    ensures Given(date) ==> (c.dateStart, c.dateEnd) == ParseDateParameter(date.value, now)
  {
    var bounds := if Given(date) then ParseDateParameter(date.value, now) else (None, None);
    Criteria(identifier, patient, practitioner, status, bounds.0, bounds.1, specialty)
  }

  /** A full date-time token is read as written. */
  lemma DateTimeTokenParsed(dt: IsoDateTime.LocalDateTime, now: Time)
    requires IsoDateTime.Valid(dt)
    ensures ParseDateTime(IsoDateTime.Format(dt), now) == IsoDateTime.ToTime(dt)
  {
    var s := IsoDateTime.Format(dt);
    ContainsChar(s, 'T');
    assert s[10] == 'T';
    IsoDateTime.ParseFormat(dt);
  }

  /** A bare date is read as midnight at the start of that date. */
  lemma BareDateIsMidnight(y: nat, m: nat, d: nat, now: Time)
    requires IsoDateTime.Valid(IsoDateTime.LocalDateTime(y, m, d, 0, 0, 0))
    ensures ParseDateTime(IsoDateTime.FormatDate(y, m, d), now) == IsoDateTime.DaysFromCivil(y, m, d) * SecondsPerDay
  {
    var s := IsoDateTime.FormatDate(y, m, d);
    ContainsChar(s, 'T');
    IsoDateTime.ParseDateAtMidnight(y, m, d);
  }

  /** A bare date with no prefix selects that whole calendar day. */
  lemma BareDateSelectsItsDay(y: nat, m: nat, d: nat, now: Time)
    requires IsoDateTime.Valid(IsoDateTime.LocalDateTime(y, m, d, 0, 0, 0))
    ensures var r := ParseDateParameter(IsoDateTime.FormatDate(y, m, d), now);
      r.0.Some? && r.1.Some? &&
      forall u :: r.0.value <= u <= r.1.value <==> DayOf(u) == IsoDateTime.DaysFromCivil(y, m, d)
  {
    var s := IsoDateTime.FormatDate(y, m, d);
    BareDateIsMidnight(y, m, d, now);
    IsoDateTime.DayOfUnique(IsoDateTime.DaysFromCivil(y, m, d) * SecondsPerDay, IsoDateTime.DaysFromCivil(y, m, d));
    assert IsDigit(s[0]);
  }

  /** A prefixed token that is not a date does not drop the filter: the bound
      is built from the current time instead. */
  lemma UnparseableTokenUsesNow(date: string, now: Time)
    requires |date| >= 2 && IsoDateTime.Parse(DateTimeText(date[2..])).None?
    ensures StartsWith(date, "ge") ==> ParseDateParameter(date, now) == (Some(now), None)
    ensures StartsWith(date, "le") ==> ParseDateParameter(date, now) == (None, Some(now))
    ensures StartsWith(date, "gt") ==> ParseDateParameter(date, now) == (Some(now + SecondsPerDay), None)
    ensures StartsWith(date, "lt") ==> ParseDateParameter(date, now) == (None, Some(now - SecondsPerDay))
  {
  }

  /** An unprefixed token that is not a date selects the current day. */
  lemma UnparseableDayUsesToday(date: string, now: Time)
    requires !StartsWith(date, "ge") && !StartsWith(date, "le") && !StartsWith(date, "gt") && !StartsWith(date, "lt")
    requires IsoDateTime.Parse(DateTimeText(date)).None?
    ensures ParseDateParameter(date, now) == (Some(StartOfDay(now)), Some(EndOfDay(now)))
  {
  }

  /** The token "ge-soon", for one, keeps a lower bound at the current time. */
  lemma MalformedGeExample(now: Time)
    ensures ParseDateParameter("ge-soon", now) == (Some(now), None)
  {
    var text := "-soon" + "T00:00:00";
    ContainsChar("-soon", 'T');
    assert text[4] != '-';
    UnparseableTokenUsesNow("ge-soon", now);
  }

  /** An `eq` prefix is not stripped: whatever follows it, the token does not
      parse, so the filter becomes the current day rather than the requested one. */
  lemma EqPrefixSelectsToday(token: string, now: Time)
    requires StartsWith(token, "eq")
    ensures ParseDateParameter(token, now) == (Some(StartOfDay(now)), Some(EndOfDay(now)))
  {
    assert token[0] == 'e' && token[1] == 'q';
    var text := if Contains(token, "T") then token else token + "T00:00:00";
    assert text[0] == 'e';
    assert IsoDateTime.Parse(text).None?;
    assert ParseDateTime(token, now) == now;
  }

  /** A lower-case `t` passes the formatter but not the `contains("T")` test:
      for a date-time to the minute such as `2024-01-01t10:00`, the appended
      midnight makes the text unparseable and the current time is used. */
  lemma LowerCaseTUsesNow(token: string, now: Time)
    requires |token| == 16 && !Contains(token, "T")
    ensures ParseDateTime(token, now) == now
  {
    var text := token + "T00:00:00";
    assert text[16] == 'T';
    IsoDateTime.TIsNotAnOffset(text);
  }
}
