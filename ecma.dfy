/** The ECMAScript built-ins the booking page relies on, over the calendar
    fields of a `Date`: `toISOString`, `toDateString`, `String.prototype.slice`
    and `String.prototype.replace` with a one-character pattern. A `Date` is
    its local calendar fields; the model takes local time to be UTC. */
module Ecma {

  import opened Digits
  import opened DateTimes

  function Abs(n: int): nat
  {
    if n < 0 then -n else n
  }

  /** `s.slice(0, n)` for n >= 0. */
  function SlicePrefix(s: string, n: nat): string
  {
    if n <= |s| then s[..n] else s
  }

  /** `s.replace(c, r)` with a string pattern: only the first occurrence. */
  function ReplaceFirst(s: string, c: char, r: char): string
  {
    if s == [] then []
    else if s[0] == c then [r] + s[1..]
    else [s[0]] + ReplaceFirst(s[1..], c, r)
  }

  /** The year field of `toISOString`: four digits inside 0..9999, otherwise
      a sign and six digits (the expanded years of ISO 8601). */
  function IsoYear(y: int): string
  {
    if 0 <= y <= 9999 then PadZero(y, 4)
    else (if y < 0 then "-" else "+") + PadZero(Abs(y), 6)
  }

  /** "YYYY-MM-DD" with the year as `toISOString` writes it. */
  function IsoDate(d: DateTime): string
    requires ValidDateTime(d)
  {
    IsoYear(d.year) + "-" + PadZero(d.month, 2) + "-" + PadZero(d.day, 2)
  }

  /** `Date.prototype.toISOString`: "YYYY-MM-DDTHH:mm:ss.sssZ". */
  function IsoString(d: DateTime): (s: string)
    requires ValidDateTime(d)
    ensures 0 <= d.year <= 9999 ==> |s| == 24 && s[10] == 'T' && s[19] == '.' && s[23] == 'Z'
  {
    var s := IsoDate(d) + "T" + TimeField(d) + "." + PadZero(d.ms, 3) + "Z";
    if 0 <= d.year <= 9999 then
      IsoFieldLengths(d);
      s
    else s
  }

  /** For a four-digit year the date, time and millisecond fields have
      their fixed widths. */
  lemma IsoFieldLengths(d: DateTime)
    requires ValidDateTime(d) && 0 <= d.year <= 9999
    ensures |IsoDate(d)| == 10 && |TimeField(d)| == 8 && |PadZero(d.ms, 3)| == 3
  {
    DateFieldParts(d);
    assert IsoDate(d) == DateField(d);
    TimeFieldParts(d);
    assert Pow10(3) == 1000;
    PadZeroRoundTrip(d.ms, 3);
  }

  const WeekdayNames: seq<string> := ["Sun", "Mon", "Tue", "Wed", "Thu", "Fri", "Sat"]
  const MonthNames: seq<string> :=
    ["Jan", "Feb", "Mar", "Apr", "May", "Jun", "Jul", "Aug", "Sep", "Oct", "Nov", "Dec"]

  /** Day of the week, 0 for Sunday, in the proleptic Gregorian calendar. */
  function Weekday(y: int, m: int, d: int): (w: nat)
    requires 1 <= m <= 12
    ensures w < 7
  {
    var offsets := [0, 3, 2, 5, 0, 3, 5, 1, 4, 6, 2, 4];
    var y' := if m < 3 then y - 1 else y;
    (y' + y' / 4 - y' / 100 + y' / 400 + offsets[m - 1] + d) % 7
  }

  /** The year as `toDateString` writes it: at least four digits, a minus
      sign before a negative year. */
  function DateStringYear(y: int): string
  {
    (if y < 0 then "-" else "") + PadZero(Abs(y), 4)
  }

  /** `Date.prototype.toDateString`: "Www Mmm DD YYYY". */
  function DateString(d: DateTime): string
    requires ValidDateTime(d)
  {
    WeekdayNames[Weekday(d.year, d.month, d.day)] + " " + MonthNames[d.month - 1] + " "
    + PadZero(d.day, 2) + " " + DateStringYear(d.year)
  }

  lemma DateStringParts(d: DateTime)
    requires ValidDateTime(d)
    ensures |DateString(d)| >= 11
    ensures DateString(d)[4..7] == MonthNames[d.month - 1]
    ensures DateString(d)[8..10] == PadZero(d.day, 2)
    ensures DateString(d)[11..] == DateStringYear(d.year)
  {
    assert Pow10(2) == 100;
    PadZeroRoundTrip(d.day, 2);
    var w := WeekdayNames[Weekday(d.year, d.month, d.day)];
    var m := MonthNames[d.month - 1];
    assert |w| == 3 && |m| == 3;
    var day := PadZero(d.day, 2);
    var pre := w + " " + m + " " + day + " ";
    var s := DateString(d);
    assert s == pre + DateStringYear(d.year);
    assert |pre| == 11 && pre[4..7] == m && pre[8..10] == day;
    assert s[..11] == pre && s[11..] == DateStringYear(d.year);
    assert s[4..7] == pre[4..7] && s[8..10] == pre[8..10];
  }

  lemma DateStringYearSign(y: int)
    ensures |DateStringYear(y)| >= 1 && (DateStringYear(y)[0] == '-' <==> y < 0)
  {
    var a := PadZero(Abs(y), 4);
    PadZeroValue(Abs(y), 4);
    NatToStringRoundTrip(Abs(y));
    assert |a| >= 1 && IsDigit(a[0]);
  }

  lemma DateStringYearInjective(y: int, z: int)
    requires DateStringYear(y) == DateStringYear(z)
    ensures y == z
  {
    DateStringYearSign(y);
    DateStringYearSign(z);
    var a, b := PadZero(Abs(y), 4), PadZero(Abs(z), 4);
    if y < 0 {
      assert a == DateStringYear(y)[1..] && b == DateStringYear(z)[1..];
    } else {
      assert DateStringYear(y) == a && DateStringYear(z) == b;
    }
    PadZeroInjective(Abs(y), Abs(z), 4);
  }

  /** `toDateString` names the calendar day and nothing else: two dates give
      the same string exactly when they fall on the same day. */
  lemma DateStringSameDay(a: DateTime, b: DateTime)
    requires ValidDateTime(a) && ValidDateTime(b)
    ensures DateString(a) == DateString(b)
        <==> (a.year, a.month, a.day) == (b.year, b.month, b.day)
  {
    if DateString(a) == DateString(b) {
      DateStringParts(a);
      DateStringParts(b);
      assert MonthNames[a.month - 1] == MonthNames[b.month - 1];
      assert a.month == b.month;
      PadZeroInjective(a.day, b.day, 2);
      DateStringYearInjective(a.year, b.year);
    }
  }

  /** The first `n` characters of `toISOString` for a four-digit year and
      the `strftime` wire string agree everywhere except index 10, where the
      ISO form has 'T' and the wire form ' '. */
  lemma IsoPrefixIsWire(d: DateTime)
    requires ValidDateTime(d) && 0 <= d.year <= 9999
    ensures |Strftime(Truncated(d))| == 19
    ensures SlicePrefix(IsoString(d), 19)
         == Strftime(Truncated(d))[..10] + "T" + Strftime(Truncated(d))[11..]
  {
    StrftimeParseRoundTrip(d);
    var t := Truncated(d);
    assert IsoDate(d) == DateField(t) && TimeField(d) == TimeField(t);
    var iso := IsoString(d);
    assert iso == (DateField(t) + "T" + TimeField(t)) + ("." + PadZero(d.ms, 3) + "Z");
  }

  /** `replace('T', ' ')` turns the first 'T' into a space; a prefix free
      of 'T' is kept. */
  lemma {:induction false} ReplaceFirstAt(s: string, k: nat)
    requires k < |s| && s[k] == 'T'
    requires forall i :: 0 <= i < k ==> s[i] != 'T'
    ensures ReplaceFirst(s, 'T', ' ') == s[..k] + " " + s[k + 1..]
  {
    if k > 0 {
      ReplaceFirstAt(s[1..], k - 1);
      assert s[..k] == [s[0]] + s[1..][..k - 1];
    }
  }
}
