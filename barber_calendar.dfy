/** The date-and-time picker of the booking page: the "H:MM" slot key, the
    rule that hides a time slot already booked on the selected day, and the
    component's own selected-date state. */
module BarberCalendar {

  import opened Wrappers
  import opened Digits
  import opened DateTimes
  import opened Ecma

  /** One entry of `bookedTimes`: the `toDateString` day key and the "H:MM"
      time key of a booked appointment. */
  datatype Booking = Booking(date: string, time: string)

  /** The minutes part of `formatTime`: a '0' in front of a single digit
      gives exactly the two-digit zero-padded field. */
  lemma MinutesField(m: nat)
    requires m < 60
    ensures (if m < 10 then "0" else "") + NatToString(m) == PadZero(m, 2)
    ensures |PadZero(m, 2)| == 2
  {
    NatToStringRoundTrip(m);
    assert Pow10(2) == 100;
    PadZeroRoundTrip(m, 2);
    if m < 10 {
      assert NatToString(m) == [DigitChar(m)];
      assert Zeros(1) == "0";
    } else {
      assert |NatToString(m)| == 2 by {
        assert NatToString(m) == NatToString(m / 10) + [DigitChar(m % 10)];
      }
    }
  }

  /** `formatTime`: the hours without padding, ':', then the minutes as two
      digits, so the key reads as hours and minutes again. */
  function FormatTime(t: DateTime): (key: string)
    requires t.hour >= 0 && t.minute >= 0
    ensures t.minute < 60 ==> key == NatToString(t.hour) + ":" + PadZero(t.minute, 2)
    ensures t.minute < 60 ==> |key| == |NatToString(t.hour)| + 3
  {
    var key := NatToString(t.hour) + ":" + (if t.minute < 10 then "0" else "") + NatToString(t.minute);
    if t.minute < 60 then MinutesField(t.minute); key else key
  }

  lemma NoColonInNumber(n: nat)
    ensures forall i :: 0 <= i < |NatToString(n)| ==> NatToString(n)[i] != ':'
  {
    NatToStringRoundTrip(n);
  }

  /** If two strings split at their first ':' agree, the parts agree. */
  lemma {:induction false} SplitAtColon(a: string, b: string, c: string, d: string)
    requires forall i :: 0 <= i < |a| ==> a[i] != ':'
    requires forall i :: 0 <= i < |c| ==> c[i] != ':'
    requires a + ":" + b == c + ":" + d
    ensures a == c && b == d
  {
    var s := a + ":" + b;
    assert s[|a|] == ':' && s[|c|] == ':';
    assert a == s[..|a|] && c == s[..|c|];
    assert b == s[|a| + 1..] && d == s[|c| + 1..];
  }

  /** Two times share a slot key exactly when they have the same hour and
      minute: the key loses nothing that the filter compares. */
  lemma FormatTimeSameSlot(a: DateTime, b: DateTime)
    requires a.hour >= 0 && 0 <= a.minute < 60
    requires b.hour >= 0 && 0 <= b.minute < 60
    ensures FormatTime(a) == FormatTime(b) <==> a.hour == b.hour && a.minute == b.minute
  {
    if FormatTime(a) == FormatTime(b) {
      NoColonInNumber(a.hour);
      NoColonInNumber(b.hour);
      SplitAtColon(NatToString(a.hour), PadZero(a.minute, 2), NatToString(b.hour), PadZero(b.minute, 2));
      NatToStringInjective(a.hour, b.hour);
      PadZeroInjective(a.minute, b.minute, 2);
    }
  }

  /** `bookedTimes.some(booking => booking.date === day && booking.time === time)`. */
  function AnyBookingAt(booked: seq<Booking>, day: string, time: string): (r: bool)
    ensures r <==> exists i :: 0 <= i < |booked| && booked[i].date == day && booked[i].time == time
  {
    if booked == [] then false
    else (booked[0].date == day && booked[0].time == time)
         || (assert forall i :: 1 <= i < |booked| ==> booked[i] == booked[1..][i - 1];
             AnyBookingAt(booked[1..], day, time))
  }

  /** The day key of the component's selected date; '' when none is set. */
  function SelectedDayKey(selected: Option<DateTime>): string
    requires selected.Some? ==> ValidDateTime(selected.value)
  {
    if selected.Some? then DateString(selected.value) else ""
  }

  /** `filterTime`: a slot is offered exactly when no booking carries both
      the selected day's key and the slot's "H:MM" key. */
  function FilterTime(booked: seq<Booking>, selected: Option<DateTime>, time: DateTime): (offered: bool)
    requires selected.Some? ==> ValidDateTime(selected.value)
    requires time.hour >= 0 && time.minute >= 0
    ensures !offered <==> exists i :: 0 <= i < |booked| && booked[i].date == SelectedDayKey(selected)
                                                     && booked[i].time == FormatTime(time)
  {
    !AnyBookingAt(booked, SelectedDayKey(selected), FormatTime(time))
  }

  /** With nothing booked every slot is offered. */
  lemma FilterTimeNothingBooked(selected: Option<DateTime>, time: DateTime)
    requires selected.Some? ==> ValidDateTime(selected.value)
    requires time.hour >= 0 && time.minute >= 0
    ensures FilterTime([], selected, time)
  {
  }

  /** More bookings never turn a hidden slot back into an offered one. */
  lemma FilterTimeMonotone(booked: seq<Booking>, more: seq<Booking>, selected: Option<DateTime>,
                           time: DateTime)
    requires selected.Some? ==> ValidDateTime(selected.value)
    requires time.hour >= 0 && time.minute >= 0
    requires !FilterTime(booked, selected, time)
    ensures !FilterTime(booked + more, selected, time)
    ensures !FilterTime(more + booked, selected, time)
  {
    var i :| 0 <= i < |booked| && booked[i].date == SelectedDayKey(selected)
                              && booked[i].time == FormatTime(time);
    assert (booked + more)[i] == booked[i];
    assert (more + booked)[|more| + i] == booked[i];
  }

  /** Before a day is picked the key is '', so bookings whose day key is
      non-empty hide nothing. */
  lemma FilterTimeNoSelection(booked: seq<Booking>, time: DateTime)
    requires time.hour >= 0 && time.minute >= 0
    requires forall i :: 0 <= i < |booked| ==> booked[i].date != ""
    ensures FilterTime(booked, None, time)
  {
  }

  /** `filterDate`: every day can be picked. */
  function FilterDate(date: DateTime): (offered: bool)
    ensures offered
  {
    true
  }

  /** The component's local state. */
  class Calendar {
    var selectedDate: Option<DateTime>

    /** `useState(null)`: no day is marked at first. */
    constructor ()
      ensures selectedDate == None
    {
      selectedDate := None;
    }

    /** `handleDateChange`: store the picked date locally and hand the same
        value to the parent's setter, returned here as `forwarded`. */
    method HandleDateChange(date: Option<DateTime>) returns (forwarded: Option<DateTime>)
      modifies this
      ensures selectedDate == date && forwarded == date
    {
      selectedDate := date;
      forwarded := date;
    }
  }
}
