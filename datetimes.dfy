/** Calendar timestamps and their wire form "YYYY-MM-DD HH:MM:SS", the
    layout the backend parses with `datetime.strptime(date, "%Y-%m-%d
    %H:%M:%S")` and writes back with `strftime` of the same format. */
module DateTimes {

  import opened Wrappers
  import opened Digits

  /** A date and wall-clock time in the proleptic Gregorian calendar, to the
      millisecond. Python datetimes parsed from the wire carry ms == 0. */
  datatype DateTime = DateTime(year: int, month: int, day: int,
                               hour: int, minute: int, second: int, ms: int)

  predicate IsLeapYear(y: int)
  {
    (y % 4 == 0 && y % 100 != 0) || y % 400 == 0
  }

  function DaysInMonth(y: int, m: int): int
    requires 1 <= m <= 12
  {
    if m == 2 then (if IsLeapYear(y) then 29 else 28)
    else if m == 4 || m == 6 || m == 9 || m == 11 then 30
    else 31
  }

  /** Every field in its calendar range. */
  predicate ValidDateTime(d: DateTime)
  {
    && 1 <= d.month <= 12
    && 1 <= d.day <= DaysInMonth(d.year, d.month)
    && 0 <= d.hour < 24 && 0 <= d.minute < 60 && 0 <= d.second < 60
    && 0 <= d.ms < 1000
  }

  /** A value Python's `datetime` can hold: MINYEAR is 1 and MAXYEAR 9999. */
  predicate ValidPyDateTime(d: DateTime)
  {
    ValidDateTime(d) && 1 <= d.year <= 9999 && d.ms == 0
  }

  /** The same instant with the sub-second part dropped. */
  function Truncated(d: DateTime): DateTime
  {
    d.(ms := 0)
  }

  /** Digits at every field position and the separators '-', '-', ' ', ':',
      ':' at indices 4, 7, 10, 13 and 16. */
  predicate WireShape(s: string)
  {
    && |s| == 19
    && s[4] == '-' && s[7] == '-' && s[10] == ' ' && s[13] == ':' && s[16] == ':'
    && AllDigits(s[0..4]) && AllDigits(s[5..7]) && AllDigits(s[8..10])
    && AllDigits(s[11..13]) && AllDigits(s[14..16]) && AllDigits(s[17..19])
  }

  /** Reads the canonical layout; a string of another shape, or one naming a
      day or time that does not exist, gives None. */
  function ParseFields(s: string): (r: Option<DateTime>)
    ensures r.Some? ==> ValidDateTime(r.value) && r.value.ms == 0
    ensures r.Some? ==> WireShape(s) && 0 <= r.value.year <= 9999
  {
    if !WireShape(s) then None
    else
      var d := DateTime(DecValue(s[0..4]), DecValue(s[5..7]), DecValue(s[8..10]),
                        DecValue(s[11..13]), DecValue(s[14..16]), DecValue(s[17..19]), 0);
      DecValueBound(s[0..4]);
      assert Pow10(4) == 10000;
      if ValidDateTime(d) then Some(d) else None
  }

  /** `datetime.strptime(s, "%Y-%m-%d %H:%M:%S")`: the canonical layout, and
      a year Python's datetime accepts. None stands for the ValueError. */
  function Strptime(s: string): (r: Option<DateTime>)
    ensures r.Some? ==> ValidPyDateTime(r.value)
    ensures r.Some? <==> ParseFields(s).Some? && ParseFields(s).value.year >= 1
  {
    match ParseFields(s)
    case Some(d) => if d.year >= 1 then Some(d) else None
    case None => None
  }

  /** "YYYY-MM-DD", four-digit year. */
  function DateField(d: DateTime): string
    requires d.year >= 0 && d.month >= 0 && d.day >= 0
  {
    PadZero(d.year, 4) + "-" + PadZero(d.month, 2) + "-" + PadZero(d.day, 2)
  }

  /** "HH:MM:SS". */
  function TimeField(d: DateTime): string
    requires d.hour >= 0 && d.minute >= 0 && d.second >= 0
  {
    PadZero(d.hour, 2) + ":" + PadZero(d.minute, 2) + ":" + PadZero(d.second, 2)
  }

  /** `strftime("%Y-%m-%d %H:%M:%S")`, four-digit year: for a valid
      timestamp, 19 characters of zero-padded fields and separators. */
  function Strftime(d: DateTime): (s: string)
    requires d.year >= 0 && d.month >= 0 && d.day >= 0
    requires d.hour >= 0 && d.minute >= 0 && d.second >= 0
    ensures ValidDateTime(d) && d.year <= 9999 ==> WireShape(s)
  {
    var date, time := DateField(d), TimeField(d);
    if ValidDateTime(d) && d.year <= 9999 then
      DateFieldParts(d);
      TimeFieldParts(d);
      Pad2(d.month); Pad2(d.day); Pad2(d.hour); Pad2(d.minute); Pad2(d.second);
      WireJoin(date, time);
      date + " " + time
    else date + " " + time
  }

  /** A date part and a time part of the right shapes, joined by a space,
      have the wire shape. */
  lemma WireJoin(date: string, time: string)
    requires |date| == 10 && date[4] == '-' && date[7] == '-'
    requires AllDigits(date[0..4]) && AllDigits(date[5..7]) && AllDigits(date[8..10])
    requires |time| == 8 && time[2] == ':' && time[5] == ':'
    requires AllDigits(time[0..2]) && AllDigits(time[3..5]) && AllDigits(time[6..8])
    ensures WireShape(date + " " + time)
  {
    var s := date + " " + time;
    assert s[0..4] == date[0..4] && s[5..7] == date[5..7] && s[8..10] == date[8..10];
    assert s[11..13] == time[0..2] && s[14..16] == time[3..5] && s[17..19] == time[6..8];
  }

  lemma Pad2(n: nat)
    requires n < 100
    ensures AllDigits(PadZero(n, 2)) && |PadZero(n, 2)| == 2 && DecValue(PadZero(n, 2)) == n
  {
    assert Pow10(2) == 100;
    PadZeroRoundTrip(n, 2);
  }

  lemma DateFieldParts(d: DateTime)
    requires ValidDateTime(d) && 0 <= d.year <= 9999
    ensures |DateField(d)| == 10 && DateField(d)[4] == '-' && DateField(d)[7] == '-'
    ensures DateField(d)[0..4] == PadZero(d.year, 4) && AllDigits(PadZero(d.year, 4))
    ensures DecValue(PadZero(d.year, 4)) == d.year
    ensures DateField(d)[5..7] == PadZero(d.month, 2) && DateField(d)[8..10] == PadZero(d.day, 2)
  {
    assert Pow10(4) == 10000;
    PadZeroRoundTrip(d.year, 4);
    Pad2(d.month);
    Pad2(d.day);
  }

  lemma TimeFieldParts(d: DateTime)
    requires ValidDateTime(d)
    ensures |TimeField(d)| == 8 && TimeField(d)[2] == ':' && TimeField(d)[5] == ':'
    ensures TimeField(d)[0..2] == PadZero(d.hour, 2) && TimeField(d)[3..5] == PadZero(d.minute, 2)
    ensures TimeField(d)[6..8] == PadZero(d.second, 2)
  {
    Pad2(d.hour);
    Pad2(d.minute);
    Pad2(d.second);
  }

  /** The wire string of a valid timestamp reads back as that timestamp,
      without its milliseconds. */
  lemma StrftimeParseRoundTrip(d: DateTime)
    requires ValidDateTime(d) && 0 <= d.year <= 9999
    ensures |DateField(d)| == 10 && |TimeField(d)| == 8
    ensures WireShape(Strftime(d))
    ensures ParseFields(Strftime(d)) == Some(Truncated(d))
  {
    DateFieldParts(d);
    TimeFieldParts(d);
    Pad2(d.month); Pad2(d.day); Pad2(d.hour); Pad2(d.minute); Pad2(d.second);
    var date, time := DateField(d), TimeField(d);
    var s := Strftime(d);
    assert s[..10] == date && s[11..] == time;
    assert s[0..4] == date[0..4] && s[5..7] == date[5..7] && s[8..10] == date[8..10];
    assert s[11..13] == time[0..2] && s[14..16] == time[3..5] && s[17..19] == time[6..8];
  }

  /** A string the parser accepts is exactly the wire string of what it
      parsed to: nothing but the canonical layout is accepted. */
  lemma ParseStrftimeRoundTrip(s: string)
    requires ParseFields(s).Some?
    ensures Strftime(ParseFields(s).value) == s
  {
    var d := ParseFields(s).value;
    PadZeroOfValue(s[0..4]); PadZeroOfValue(s[5..7]); PadZeroOfValue(s[8..10]);
    PadZeroOfValue(s[11..13]); PadZeroOfValue(s[14..16]); PadZeroOfValue(s[17..19]);
    var date, time := s[..10], s[11..];
    assert date == s[0..4] + "-" + s[5..7] + "-" + s[8..10];
    assert time == s[11..13] + ":" + s[14..16] + ":" + s[17..19];
    assert DateField(d) == date && TimeField(d) == time;
    assert s == date + " " + time;
  }

  /** Two accepted wire strings are equal exactly when they name the same
      timestamp. */
  lemma ParseFieldsInjective(s: string, t: string)
    requires ParseFields(s).Some? && ParseFields(t).Some?
    ensures ParseFields(s) == ParseFields(t) <==> s == t
  {
    if ParseFields(s) == ParseFields(t) {
      ParseStrftimeRoundTrip(s);
      ParseStrftimeRoundTrip(t);
    }
  }
}
