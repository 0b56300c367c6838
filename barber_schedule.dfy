/** The booking page of one barber: the booked-slot list handed to the
    calendar, the confirmation handler with its two conflict checks and its
    free-or-paid branch, and the count of free services on offer. */
module BarberSchedule {

  import opened Wrappers
  import opened DateTimes
  import opened Ecma
  import opened BarberCalendar

  /** An appointment as the page receives it from the barber's appointment
      list; the page reads only its `date` string. */
  datatype AppointmentEntry = AppointmentEntry(date: string)

  /** `new Date(s)` on an appointment's date string: the "YYYY-MM-DD
      HH:MM:SS" strings the backend sends are read as local calendar fields;
      None stands for an Invalid Date. */
  function ParseDate(s: string): (r: Option<DateTime>)
    ensures r.Some? ==> ValidDateTime(r.value) && r.value.ms == 0
    ensures r.Some? ==> WireShape(s) && 0 <= r.value.year <= 9999
  {
    ParseFields(s)
  }

  /** A string the page can parse is exactly the server's wire string of
      the fields it parsed to. */
  lemma ParseDateIsWire(s: string)
    requires ParseDate(s).Some?
    ensures Strftime(ParseDate(s).value) == s
  {
    ParseStrftimeRoundTrip(s);
  }

  /** The `bookedTimes` entry of a parsed date; the page writes the time with
      the same expression as the calendar's `formatTime`. */
  function BookingOf(d: DateTime): Booking
    requires ValidDateTime(d)
  {
    Booking(DateString(d), FormatTime(d))
  }

  /** `appointments.map(...).filter(item => item !== null)`: one booking
      per appointment whose date parses, invalid dates skipped, so never
      more entries than appointments. */
  function BookedTimes(appointments: seq<AppointmentEntry>): (booked: seq<Booking>)
    ensures |booked| <= |appointments|
  {
    if appointments == [] then []
    else
      assert forall i :: 1 <= i < |appointments| ==> appointments[i] == appointments[1..][i - 1];
      EntryBookings(appointments[0]) + BookedTimes(appointments[1..])
  }

  /** The entry one appointment contributes: none when its date does not
      parse. */
  function EntryBookings(e: AppointmentEntry): seq<Booking>
  {
    match ParseDate(e.date)
    case None => []
    case Some(d) => [BookingOf(d)]
  }

  /** Building `bookedTimes` commutes with concatenation, so entries keep
      the order of their appointments. */
  lemma {:induction false} BookedTimesAppend(a: seq<AppointmentEntry>, b: seq<AppointmentEntry>)
    ensures BookedTimes(a + b) == BookedTimes(a) + BookedTimes(b)
  {
    if a != [] {
      var e, rest := a[0], a[1..];
      assert (a + b)[0] == e && (a + b)[1..] == rest + b;
      assert BookedTimes(a + b) == EntryBookings(e) + BookedTimes(rest + b);
      assert BookedTimes(a) == EntryBookings(e) + BookedTimes(rest);
      BookedTimesAppend(rest, b);
    } else {
      assert a + b == b;
    }
  }

  /** Appointment `e` gives booking `b`: its date parses, to a date with
      `b`'s two keys. */
  predicate Yields(e: AppointmentEntry, b: Booking)
  {
    ParseDate(e.date).Some? && b == BookingOf(ParseDate(e.date).value)
  }

  lemma EntryBookingsMembers(e: AppointmentEntry, b: Booking)
    ensures b in EntryBookings(e) <==> Yields(e, b)
  {
  }

  /** A booking is listed exactly when some appointment's date parses to a
      date with that day key and "H:MM" key. */
  lemma {:induction false} BookedTimesMembers(appointments: seq<AppointmentEntry>, b: Booking)
    ensures b in BookedTimes(appointments)
        <==> exists i :: 0 <= i < |appointments| && Yields(appointments[i], b)
  {
    if appointments != [] {
      var rest := appointments[1..];
      BookedTimesMembers(rest, b);
      EntryBookingsMembers(appointments[0], b);
      assert BookedTimes(appointments) == EntryBookings(appointments[0]) + BookedTimes(rest);
      if b in BookedTimes(rest) {
        var j :| 0 <= j < |rest| && Yields(rest[j], b);
        assert appointments[j + 1] == rest[j];
      }
      if i :| 0 <= i < |appointments| && Yields(appointments[i], b) {
        if i > 0 {
          assert rest[i - 1] == appointments[i];
        }
      }
    }
  }

  /** One entry for each appointment when every date parses. */
  lemma {:induction false} BookedTimesFullLength(appointments: seq<AppointmentEntry>)
    requires forall i :: 0 <= i < |appointments| ==> ParseDate(appointments[i].date).Some?
    ensures |BookedTimes(appointments)| == |appointments|
  {
    if appointments != [] {
      var rest := appointments[1..];
      assert forall i :: 0 <= i < |rest| ==> rest[i] == appointments[i + 1];
      BookedTimesFullLength(rest);
      assert BookedTimes(appointments) == EntryBookings(appointments[0]) + BookedTimes(rest);
    }
  }

  /** The two keys of one booked appointment match the selected day and a
      slot exactly when the appointment falls on that day, hour and minute. */
  lemma BookingKeyIffSameSlot(d: DateTime, selected: DateTime, time: DateTime)
    requires ValidDateTime(d) && ValidDateTime(selected) && ValidDateTime(time)
    ensures BookingOf(d) == Booking(DateString(selected), FormatTime(time)) <==> SameSlot(d, selected, time)
  {
    DateStringSameDay(d, selected);
    FormatTimeSameSlot(d, time);
  }

  /** The calendar hides a slot of the selected day exactly when some
      appointment's date parses to that day at that hour and minute. */
  lemma SlotHiddenIffBooked(appointments: seq<AppointmentEntry>, selected: DateTime, time: DateTime)
    requires ValidDateTime(selected) && ValidDateTime(time)
    ensures !FilterTime(BookedTimes(appointments), Some(selected), time)
        <==> exists i :: 0 <= i < |appointments| && ParseDate(appointments[i].date).Some?
                         && SameSlot(ParseDate(appointments[i].date).value, selected, time)
  {
    var key := Booking(DateString(selected), FormatTime(time));
    BookedTimesMembers(appointments, key);
    forall i | 0 <= i < |appointments| && ParseDate(appointments[i].date).Some?
      ensures BookingOf(ParseDate(appointments[i].date).value) == key
          <==> SameSlot(ParseDate(appointments[i].date).value, selected, time)
    {
      BookingKeyIffSameSlot(ParseDate(appointments[i].date).value, selected, time);
    }
  }

  /** Same calendar day as `day`, same hour and minute as `time`. */
  predicate SameSlot(d: DateTime, day: DateTime, time: DateTime)
  {
    d.year == day.year && d.month == day.month && d.day == day.day
    && d.hour == time.hour && d.minute == time.minute
  }

  /** For a four-digit year, the first 19 characters of `toISOString` with
      the 'T' replaced are the backend's `strftime` wire string of the same
      second. */
  lemma IsoSliceIsWire(d: DateTime)
    requires ValidDateTime(d) && 0 <= d.year <= 9999
    ensures ReplaceFirst(SlicePrefix(IsoString(d), 19), 'T', ' ') == Strftime(Truncated(d))
  {
    IsoPrefixIsWire(d);
    StrftimeParseRoundTrip(d);
    var w := Strftime(Truncated(d));
    var iso := SlicePrefix(IsoString(d), 19);
    assert iso == w[..10] + "T" + w[11..];
    WireDateHasNoT(w);
    assert forall i :: 0 <= i < 10 ==> iso[i] == w[i];
    ReplaceFirstAt(iso, 10);
    assert iso[..10] + " " + iso[11..] == w;
  }

  /** The date part of a wire string is digits and '-', never a 'T'. */
  lemma WireDateHasNoT(w: string)
    requires WireShape(w)
    ensures forall i :: 0 <= i < 10 ==> w[i] != 'T'
  {
    assert forall i :: 0 <= i < 4 ==> w[i] == w[0..4][i];
    assert forall i :: 5 <= i < 7 ==> w[i] == w[5..7][i - 5];
    assert forall i :: 8 <= i < 10 ==> w[i] == w[8..10][i - 8];
  }

  /** `selectedDate.toISOString().slice(0, 19).replace('T', ' ')`: for a
      four-digit year, the backend's wire string of the selected second. */
  function WireDate(d: DateTime): (w: string)
    requires ValidDateTime(d)
    ensures 0 <= d.year <= 9999 ==> w == Strftime(Truncated(d))
  {
    var w := ReplaceFirst(SlicePrefix(IsoString(d), 19), 'T', ' ');
    if 0 <= d.year <= 9999 then IsoSliceIsWire(d); w else w
  }

  /** For a four-digit year the page sends exactly the string the backend's
      `strftime("%Y-%m-%d %H:%M:%S")` writes for the same second: 19
      characters, a space at index 10, and `strptime` reads it back. */
  lemma WireDateIsBackendFormat(d: DateTime)
    requires ValidDateTime(d) && 0 <= d.year <= 9999
    ensures WireDate(d) == Strftime(Truncated(d))
    ensures |WireDate(d)| == 19 && WireDate(d)[10] == ' '
    ensures ParseFields(WireDate(d)) == Some(Truncated(d))
    ensures d.year >= 1 ==> Strptime(WireDate(d)) == Some(Truncated(d))
  {
    StrftimeParseRoundTrip(d);
  }

  /** `appointments.some(appointment => appointment.date === formatted)`. */
  function AnyDateEquals(appointments: seq<AppointmentEntry>, formatted: string): (r: bool)
    ensures r <==> exists i :: 0 <= i < |appointments| && appointments[i].date == formatted
  {
    if appointments == [] then false
    else appointments[0].date == formatted
         || (assert forall i :: 1 <= i < |appointments| ==> appointments[i] == appointments[1..][i - 1];
             AnyDateEquals(appointments[1..], formatted))
  }

  /** The exact-string check at confirmation rejects a date exactly when an
      appointment's date names the same second. */
  lemma DateTakenIffSameSecond(appointments: seq<AppointmentEntry>, selected: DateTime)
    requires ValidDateTime(selected) && 0 <= selected.year <= 9999
    ensures AnyDateEquals(appointments, WireDate(selected))
        <==> exists i :: 0 <= i < |appointments|
                         && ParseDate(appointments[i].date) == Some(Truncated(selected))
  {
    WireDateIsBackendFormat(selected);
    var w := WireDate(selected);
    forall i | 0 <= i < |appointments| && ParseDate(appointments[i].date) == Some(Truncated(selected))
      ensures appointments[i].date == w
    {
      ParseFieldsInjective(appointments[i].date, w);
    }
  }

  /** Whatever the confirmation check rejects, the calendar already hid:
      an appointment at the very second is also at that day, hour and
      minute. */
  lemma DateTakenImpliesSlotHidden(appointments: seq<AppointmentEntry>, selected: DateTime)
    requires ValidDateTime(selected) && 0 <= selected.year <= 9999
    requires AnyDateEquals(appointments, WireDate(selected))
    ensures !FilterTime(BookedTimes(appointments), Some(selected), selected)
  {
    DateTakenIffSameSecond(appointments, selected);
    var i :| 0 <= i < |appointments| && ParseDate(appointments[i].date) == Some(Truncated(selected));
    SlotHiddenIffBooked(appointments, selected, selected);
    assert SameSlot(ParseDate(appointments[i].date).value, selected, selected);
  }

  /** `Math.floor(points / 100)`: each 100 points buy one free service. */
  function FreeServicesAvailable(points: int): (n: int)
    ensures n * 100 <= points < (n + 1) * 100
    ensures points >= 0 ==> n >= 0
  {
    points / 100
  }

  /** The free-service offer is rendered when at least one free service is
      available and free mode is not already on. */
  function ShowFreeOffer(points: int, isFreeService: bool): (shown: bool)
    ensures shown <==> points >= 100 && !isFreeService
  {
    FreeServicesAvailable(points) > 0 && !isFreeService
  }

  const MsgSelect: string := "Por favor, selecione uma data e um serviço."
  const MsgTaken: string := "Já existe um agendamento para este horário."
  const MsgRedeemFailed: string := "Erro ao resgatar o serviço gratuito."
  const MsgCreateFailed: string := "Erro ao criar o agendamento. Tente novamente mais tarde."

  /** The request the handler issues, if any. */
  datatype Request =
    | NoRequest
    | RedeemFreeService(serviceId: string, barberId: string)
    | CreateAppointment(date: string, serviceId: string, barberId: string)

  /** What the awaited API call produced: a response body, whose `error`
      field may be set, or a thrown exception. */
  datatype ApiReply = Data(error: Option<string>) | Thrown

  /** `if (data.error)`: a non-empty error string. */
  predicate ReportsError(reply: ApiReply)
  {
    reply.Data? && reply.error.Some? && reply.error.value != ""
  }

  /** The page's state. */
  class SchedulePage {
    var appointments: seq<AppointmentEntry>
    var error: Option<string>
    var selectedDate: Option<DateTime>
    var selectedService: string
    var points: int
    var isFreeService: bool
    var userId: string
    /** The route `navigate` was last asked to open. */
    var navigatedTo: Option<string>

    ghost predicate Valid()
      reads this
    {
      selectedDate.Some? ==> ValidDateTime(selectedDate.value)
    }

    /** The initial `useState` values; `userId` is read from storage. */
    constructor (userId: string)
      ensures Valid()
      ensures appointments == [] && error == None && selectedDate == None
      ensures selectedService == "" && points == 0 && !isFreeService
      ensures this.userId == userId && navigatedTo == None
    {
      appointments := [];
      error := None;
      selectedDate := None;
      selectedService := "";
      points := 0;
      isFreeService := false;
      this.userId := userId;
      navigatedTo := None;
    }

    /** Picking a date in the calendar: the calendar stores it and forwards
        it to this page's `setSelectedDate`, so both hold the same date. */
    method PickDate(calendar: Calendar, date: Option<DateTime>)
      requires Valid()
      requires date.Some? ==> ValidDateTime(date.value)
      modifies this, calendar
      ensures Valid()
      ensures selectedDate == date && calendar.selectedDate == date
      ensures appointments == old(appointments) && error == old(error)
      ensures selectedService == old(selectedService) && points == old(points)
      ensures isFreeService == old(isFreeService) && navigatedTo == old(navigatedTo)
      ensures userId == old(userId)
    {
      var forwarded := calendar.HandleDateChange(date);
      selectedDate := forwarded;
    }

    /** `handleConfirmAppointment`, with `reply` standing for whatever the
        awaited call returns. */
    method HandleConfirmAppointment(barberId: string, reply: ApiReply) returns (sent: Request)
      requires Valid()
      modifies this
      ensures Valid()
      ensures appointments == old(appointments) && points == old(points)
      ensures isFreeService == old(isFreeService) && userId == old(userId)
      // Missing input: an error and no request.
      ensures old(selectedDate).None? || old(selectedService) == "" ==>
                sent == NoRequest && error == Some(MsgSelect)
                && selectedDate == old(selectedDate) && selectedService == old(selectedService)
                && navigatedTo == old(navigatedTo)
      // The exact-second conflict check: an error and no request.
      ensures old(selectedDate).Some? && old(selectedService) != ""
              && AnyDateEquals(appointments, WireDate(old(selectedDate).value)) ==>
                sent == NoRequest && error == Some(MsgTaken)
                && selectedDate == old(selectedDate) && selectedService == old(selectedService)
                && navigatedTo == old(navigatedTo)
      // Otherwise exactly one request, chosen by the free-service mode.
      ensures old(selectedDate).Some? && old(selectedService) != ""
              && !AnyDateEquals(appointments, WireDate(old(selectedDate).value)) ==>
                sent == (if isFreeService then RedeemFreeService(old(selectedService), barberId)
                         else CreateAppointment(WireDate(old(selectedDate).value),
                                                old(selectedService), barberId))
      // After a request: success clears the selection and navigates;
      // failure sets an error and keeps the selection.
      ensures sent != NoRequest && reply.Data? && !ReportsError(reply) ==>
                selectedDate == None && selectedService == "" && error == old(error)
                && navigatedTo == Some("/appointments/" + userId)
      ensures sent != NoRequest && !(reply.Data? && !ReportsError(reply)) ==>
                selectedDate == old(selectedDate) && selectedService == old(selectedService)
                && navigatedTo == old(navigatedTo)
                && error == Some(if sent.CreateAppointment? && reply.Data? then reply.error.value
                                 else if sent.CreateAppointment? then MsgCreateFailed
                                 else MsgRedeemFailed)
    {
      if selectedDate.None? || selectedService == "" {
        error := Some(MsgSelect);
        return NoRequest;
      }

      var formattedDate := WireDate(selectedDate.value);

      var isDateTaken := AnyDateEquals(appointments, formattedDate);
      if isDateTaken {
        error := Some(MsgTaken);
        return NoRequest;
      }

      if isFreeService {
        sent := RedeemFreeService(selectedService, barberId);
        if ReportsError(reply) || reply.Thrown? {
          error := Some(MsgRedeemFailed);
        } else {
          selectedDate := None;
          selectedService := "";
          navigatedTo := Some("/appointments/" + userId);
        }
      } else {
        sent := CreateAppointment(formattedDate, selectedService, barberId);
        if ReportsError(reply) {
          error := Some(reply.error.value);
        } else if reply.Thrown? {
          error := Some(MsgCreateFailed);
        } else {
          selectedDate := None;
          selectedService := "";
          navigatedTo := Some("/appointments/" + userId);
        }
      }
    }
  }

  /** When the page gets past its `isDateTaken` check, the create request
      it sends carries a date the backend parses back to the selected
      second (for years 1..9999), and no listed appointment parses to that
      same second. */
  lemma CreateRequestParses(appointments: seq<AppointmentEntry>, selected: DateTime, service: string,
                            barber: string)
    requires ValidDateTime(selected) && 1 <= selected.year <= 9999
    requires !AnyDateEquals(appointments, WireDate(selected))
    ensures Strptime(CreateAppointment(WireDate(selected), service, barber).date) == Some(Truncated(selected))
    ensures forall i :: 0 <= i < |appointments| ==> ParseDate(appointments[i].date) != Some(Truncated(selected))
  {
    WireDateIsBackendFormat(selected);
    DateTakenIffSameSecond(appointments, selected);
  }
}
