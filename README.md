# Barber booking: slot conflicts and request validation

This project models the core of a barber-shop booking application.

The browser side is a React page. A customer picks a barber, a day and a time, and
confirms. Two rules decide whether a time can be booked:

- the date picker hides a time slot when an appointment already has the same day
  key (`toDateString`) and the same "H:MM" key;
- the confirmation handler refuses a date whose
  `toISOString().slice(0, 19).replace('T', ' ')` string equals a listed appointment's
  date exactly.

The server side is a Flask application over three MongoDB collections: users,
services and appointments. Its handlers do the following:

- validate request bodies with Python truthiness;
- look documents up with `find_one`, which returns the first match in insertion
  order;
- register users, and log them in with a hashed password;
- check the role carried by the JWT identity;
- list appointments, barbers and services;
- seed the hard-coded barbers and services without duplicating them;
- insert appointments. No conflict check is made on the server: the same slot can be
  booked twice.

## Structure

- **Wrappers** and **Json**: the JSON values a request body can hold, Python
  truthiness, `dict.get`, and the handlers' `(body, status)` replies.
- **Digits**: decimal and hexadecimal digit strings, with round-trip lemmas.
- **DateTimes**: the calendar and the `"%Y-%m-%d %H:%M:%S"` format. `Strftime` writes
  it, `ParseFields` and `Strptime` read it, and round trips are proved both ways.
- **Ecma**: `toISOString`, `toDateString`, `slice`, and `replace` of the first
  occurrence only.
- **ObjectIds**: the 24-hex-digit id strings and `ObjectId.is_valid`.
- **Store**:
  - the documents, `find_one`, and `find` as a filter;
  - the password hash;
  - a `Db` class whose collections the handlers update in place.
- **UserRoutes**, **ServiceRoutes** and **AppointmentRoutes**: the Flask handlers.
  Each pure validation is a function from the inputs to the reply. Each handler that
  writes to the database is a module-level method that takes the `Db` and is proved
  against that function. Only the insert and delete primitives are methods of `Db`.
- **BarberCalendar**: the picker's slot key, its `filterTime` rule, and its local
  selected-date state.
- **BarberSchedule**: the `bookedTimes` list, the confirmation handler as a class
  over the page's state, and the free-service counter.

The central results tie the two client-side checks to each other and to the server.
The first three hold when the browser's local time is UTC (see "## Left out"):

- `SlotHiddenIffBooked`: a slot is hidden exactly when an appointment falls on that
  day, hour and minute.
- `DateTakenIffSameSecond`: the confirmation check fires exactly when an appointment
  falls on that very second.
- `DateTakenImpliesSlotHidden`: the confirmation check never rejects a slot that the
  picker offered.
- `WireDateIsBackendFormat`: the string the page sends is the one the server's
  `strptime` reads back to the same second.
- `BookTwice`: the server stores two appointments for the same barber and date.

## Model

| member | source | states |
|---|---|---|
| BarberCalendar.FormatTime | frontend/src/components/BarberCalendar.js:10-14 | for minutes below 60 the key is the unpadded hour, ':', and the minutes zero-padded to two digits, so it is three characters longer than the hour |
| BarberCalendar.MinutesField | frontend/src/components/BarberCalendar.js:13 | a '0' in front of a minute below ten gives exactly the two-digit zero-padded field |
| BarberCalendar.FormatTimeSameSlot | frontend/src/components/BarberCalendar.js:10-14 | two times give the same "H:MM" key exactly when their hour and minute agree |
| BarberCalendar.AnyBookingAt | frontend/src/components/BarberCalendar.js:41-43 | the `some` over bookings is true exactly when some booking has both the day key and the time key |
| BarberCalendar.FilterTime | frontend/src/components/BarberCalendar.js:36-44 | `filterTime` hides a slot exactly when some booking carries the selected day's key and the slot's key |
| BarberCalendar.FilterTimeNothingBooked | frontend/src/components/BarberCalendar.js:36-44 | with no bookings every slot is offered |
| BarberCalendar.FilterTimeMonotone | frontend/src/components/BarberCalendar.js:36-44 | adding bookings before or after never makes a hidden slot available again |
| BarberCalendar.FilterTimeNoSelection | frontend/src/components/BarberCalendar.js:37 | with no selected date the day key is empty, so no booking with a real day key hides anything |
| BarberCalendar.FilterDate | frontend/src/components/BarberCalendar.js:32-35 | every day can be picked |
| BarberCalendar.Calendar.HandleDateChange | frontend/src/components/BarberCalendar.js:17-20 | the picked date becomes the local selection and is handed on unchanged to the parent |
| BarberSchedule.ParseDate | frontend/src/pages/BarberSchedule.js:81-82 | `new Date` yields a valid date with no milliseconds, and only for a string in the server's wire layout with a four-digit year; anything else is an Invalid Date |
| BarberSchedule.ParseDateIsWire | frontend/src/pages/BarberSchedule.js:81-82 | a string the page can parse is exactly the server's wire string of the date it parsed to |
| BarberSchedule.BookedTimes | frontend/src/pages/BarberSchedule.js:80-96 | one entry at most per appointment: the list is never longer than the appointments |
| BarberSchedule.EntryBookingsMembers | frontend/src/pages/BarberSchedule.js:81-95 | one appointment contributes a booking exactly when its date parses, and the booking carries that date's keys |
| BarberSchedule.BookedTimesAppend | frontend/src/pages/BarberSchedule.js:80-96 | `bookedTimes` distributes over concatenation, so the map and filter keep the appointments' order |
| BarberSchedule.BookedTimesMembers | frontend/src/pages/BarberSchedule.js:80-96 | a booking is listed exactly when some appointment's date parses to a date with that day key and time key |
| BarberSchedule.BookedTimesFullLength | frontend/src/pages/BarberSchedule.js:80-96 | when every date parses, nothing is dropped: one entry per appointment |
| BarberSchedule.SlotHiddenIffBooked | frontend/src/pages/BarberSchedule.js:80-96 | when the browser's local time is UTC: on the selected day a slot is hidden exactly when some appointment parses to that day, hour and minute |
| BarberSchedule.IsoSliceIsWire | frontend/src/pages/BarberSchedule.js:104 | for a four-digit year, the first 19 characters of `toISOString` with the first 'T' replaced are the server's `strftime` string of the same second |
| BarberSchedule.WireDate | frontend/src/pages/BarberSchedule.js:104 | for a four-digit year the formatted date equals the server's `strftime` of the selected second |
| BarberSchedule.WireDateIsBackendFormat | frontend/src/pages/BarberSchedule.js:104 | for years 0-9999 the sent date is exactly the server's `strftime` of the same second: 19 characters with a space at index 10, and `strptime` reads it back for years from 1 |
| BarberSchedule.AnyDateEquals | frontend/src/pages/BarberSchedule.js:106 | the `isDateTaken` test is true exactly when some appointment's date string equals the formatted date |
| BarberSchedule.DateTakenIffSameSecond | frontend/src/pages/BarberSchedule.js:104-110 | the confirmation check fires exactly when some appointment's date parses to the selected second |
| BarberSchedule.DateTakenImpliesSlotHidden | frontend/src/pages/BarberSchedule.js:106-110 | when the browser's local time is UTC: whatever the confirmation check rejects, the picker had already hidden |
| BarberSchedule.CreateRequestParses | frontend/src/pages/BarberSchedule.js:104-116 | when the check is passed, the create request's date parses on the server to the selected second, and no listed appointment parses to that second |
| BarberSchedule.FreeServicesAvailable | frontend/src/pages/BarberSchedule.js:150 | floor division by 100: n*100 <= points < (n+1)*100, and n is non-negative for non-negative points |
| BarberSchedule.ShowFreeOffer | frontend/src/pages/BarberSchedule.js:158 | the offer is shown exactly when points reach 100 and free-service mode is off |
| BarberSchedule.SchedulePage.PickDate | frontend/src/pages/BarberSchedule.js:15 | the calendar's choice becomes the page's `selectedDate` and changes nothing else on the page |
| BarberSchedule.SchedulePage.HandleConfirmAppointment | frontend/src/pages/BarberSchedule.js:98-147 | missing input or a taken date sets the matching error and sends nothing. Otherwise exactly one request is sent: a redeem in free-service mode, else a create with the formatted date. On success the selection is cleared and the page navigates to the user's appointments. On failure the matching error is set and the selection is kept |
| UserRoutes.RegisterReply | backend/app/user_routes.py:16-43 | 400 exactly when a field is falsy; 400 for a role other than user or barber; 409 exactly when the email is taken; 500 for a non-string password; 201 otherwise |
| UserRoutes.Register | backend/app/user_routes.py:16-43 | the reply is `RegisterReply` on the old users. Success appends one user with a fresh id and the hashed password; failure changes nothing. Unique emails are preserved |
| UserRoutes.IdentityOf | backend/app/user_routes.py:62-66 | the token identity has exactly the keys id, email and role; its id string parses back to the user's id, and the email and role are the user's |
| UserRoutes.Login | backend/app/user_routes.py:47-72 | 400 when email or password is falsy; 200 with the first user of that email exactly when its hash accepts the password, the session carrying its id string, email and role; 401 otherwise |
| UserRoutes.RegisterThenLogin | backend/app/user_routes.py:35-70 | after a successful registration, logging in with the same email and password returns the new user, and with another non-empty string password returns 401 |
| UserRoutes.BarberAppointmentsAccess | backend/app/user_routes.py:79-82 | access is granted exactly for role user or barber; any other role gives 403; an identity without a role gives 500 |
| UserRoutes.UserAppointmentsAccess | backend/app/user_routes.py:132-133 | the caller's own id passes, and so does any caller with role "user"; otherwise 403, or 500 when the identity lacks a key the check reads |
| UserRoutes.BarbersAccess | backend/app/user_routes.py:175-178 | only role "user" passes; other roles give 403; a missing role gives 500 |
| UserRoutes.CheckRole | backend/app/user_routes.py:196-204 | 200 with the identity's role exactly when it has one, else 400 |
| UserRoutes.LoginIdentityAccess | backend/app/user_routes.py:62-66 | the identity a login issues passes the appointment checks: any user for any id, a barber only for their own id. Only a "user" may list barbers, and check_role echoes the stored role |
| UserRoutes.BarberViewJoins | backend/app/user_routes.py:99-120 | an entry's date string parses back to the stored date, and its id strings parse back to the stored ids. The client name comes from a user with the appointment's user id, or is "Unknown User" when none exists. The service fields come from one service with the appointment's service id, or are the three "Unknown ..." strings |
| UserRoutes.BarberViewsEmpty | backend/app/user_routes.py:96-124 | the barber's list holds exactly the appointments with that barber id, and is empty exactly when there are none |
| UserRoutes.GetBarberAppointments | backend/app/user_routes.py:77-124 | the role check, then 400 for a malformed id, then 404 for a missing barber; otherwise 200 with one view per appointment of that barber in collection order, and the "no appointments" note exactly when the list is empty |
| UserRoutes.UserViewJoins | backend/app/user_routes.py:145-163 | an entry's date string parses back to the stored date, and its service id string parses back. The barber name comes from a user with the barber id and role "barber", or is "Unknown". The service fields come from one service with the appointment's service id, or are "Unknown" |
| UserRoutes.UserViewsEmpty | backend/app/user_routes.py:142-167 | the user's list holds exactly the appointments with that user id, and is empty exactly when there are none |
| UserRoutes.GetUserAppointments | backend/app/user_routes.py:129-167 | the access check, then 400 for a malformed id; otherwise 200 with one view per appointment of that user in collection order, and the note exactly when the list is empty |
| UserRoutes.BarberSummariesMembers | backend/app/user_routes.py:180-192 | the listing holds a summary of every barber and only of barbers |
| UserRoutes.GetBarbers | backend/app/user_routes.py:173-192 | the access check, then 200 with the summaries of the barbers in collection order |
| UserRoutes.SeedBarbers | backend/app/user_routes.py:225-229 | seeding keeps the existing users as a prefix and appends barbers with the default password and consecutive fresh ids; unique emails are preserved |
| UserRoutes.SeedBarbersPresent | backend/app/user_routes.py:225-229 | after seeding, every seed's email is present |
| UserRoutes.SeedBarbersIdempotent | backend/app/user_routes.py:225-229 | seeding twice gives the same users as seeding once |
| UserRoutes.RegisterBarbers | backend/app/user_routes.py:209-231 | the users become `SeedBarbers` of the old users over the ten seeds, and the reply is 200 |
| ServiceRoutes.RegisterServiceReply | backend/app/service_routes.py:13-33 | 400 exactly when name, duration or value is falsy; 400 exactly when the duration is not 30 or 60; 201 otherwise |
| ServiceRoutes.RegisterService | backend/app/service_routes.py:13-33 | the reply is `RegisterServiceReply`; success appends the service with points defaulting to 0; failure changes nothing; valid durations are preserved |
| ServiceRoutes.DeleteService | backend/app/service_routes.py:38-45 | a malformed id gives 500, no document with that id gives 404, otherwise exactly one document with that id is removed and the reply is 200; valid durations are preserved |
| ServiceRoutes.ServiceViewOf | backend/app/service_routes.py:55-61 | the view copies name, duration and value, defaults points to 0, and its id string parses back to the document id |
| ServiceRoutes.GetServices | backend/app/service_routes.py:50-63 | 200 with the views of the first min(10, n) services in collection order |
| ServiceRoutes.SeedServices | backend/app/service_routes.py:82-85 | seeding keeps the existing services as a prefix, appends with consecutive fresh ids, and keeps durations valid |
| ServiceRoutes.SeedServicesPresent | backend/app/service_routes.py:82-85 | after seeding, every seed's name is present |
| ServiceRoutes.SeedServicesIdempotent | backend/app/service_routes.py:82-85 | seeding twice gives the same services as seeding once |
| ServiceRoutes.RegisterServices | backend/app/service_routes.py:66-87 | the services become `SeedServices` of the old services over the ten seeds, and the reply is 200 |
| AppointmentRoutes.ParseDateJson | backend/app/appointment_routes.py:47 | a date is accepted exactly when it is a string `strptime` reads, and the result is a valid Python datetime |
| AppointmentRoutes.CreateAppointmentReply | backend/app/appointment_routes.py:17-53 | the guard order: 500 without an identity id, 400 for a falsy field, 400 for an invalid barber id, 404 for a missing barber, 400 for an invalid service id, 500 for a token id that is neither null nor an ObjectId, or a bad date; otherwise 201 with the parsed ids and date, a null token id booking under the generated id |
| AppointmentRoutes.TokenUserId | backend/app/appointment_routes.py:44 | `ObjectId(user_id)` succeeds exactly on null or a valid id string; null gives the generated id, a valid string its own value |
| AppointmentRoutes.CreateAppointment | backend/app/appointment_routes.py:17-53 | a failure changes nothing; a success appends one "scheduled" appointment under a fresh document id, with the token's user id (the generated one for a null token id), the barber, the service and the parsed date |
| AppointmentRoutes.BookTwice | backend/app/appointment_routes.py:42-53 | the same valid request made twice succeeds twice and stores two appointments with the same barber and date |
| Store.FindBarber | backend/app/user_routes.py:91 | `find_one` by id and role "barber" is None exactly when no user has both, and otherwise returns a user of the collection with that id and role |
| Store.Db.InsertUser | backend/app/user_routes.py:36-41 | `insert_one` appends the user under the counter's next id, which is above every stored id, and leaves the other collections unchanged |
| Store.Db.InsertService | backend/app/service_routes.py:26-31 | `insert_one` appends the service with a fresh id and leaves the other collections unchanged |
| Store.Db.InsertAppointment | backend/app/appointment_routes.py:51 | `insert_one` appends the appointment with a fresh id and leaves the other collections unchanged |
| Store.FindUserById | backend/app/user_routes.py:101 | `find_one` by id is None exactly when no user has that id, and otherwise returns a user of the collection with that id |
| Store.FindServiceById | backend/app/user_routes.py:105 | `find_one` by id is None exactly when no service has that id, and otherwise returns a service of the collection with that id |
| Store.FindUserByEmail | backend/app/user_routes.py:31 | `find_one` by email is None exactly when no user has that email, and otherwise returns the first such user |
| Store.Filter | backend/app/user_routes.py:96 | the cursor yields exactly the documents matching the query, from the collection |
| Store.FilterSnoc | backend/app/user_routes.py:96 | the cursor keeps collection order: a document added at the end comes out last if it matches, after the unchanged earlier results |
| Store.GeneratePasswordHash | backend/app/user_routes.py:35 | the hash accepts its own password and no other |
| Store.AppendKeepsUniqueEmails | backend/app/user_routes.py:31-41 | inserting a user whose email is absent keeps emails unique |
| Store.Db.DeleteService | backend/app/service_routes.py:40 | `delete_one` removes the first document with the id and reports 1, or reports 0 and changes nothing; afterwards no document has the id |
| ObjectIds.ParseId | backend/app/user_routes.py:84-88 | `ObjectId(s)` succeeds exactly on 24 hexadecimal digits, and the id is below 16^24 |
| ObjectIds.IdString | backend/app/user_routes.py:63 | `str(_id)` is always 24 hexadecimal digits |
| ObjectIds.IdStringRoundTrip | backend/app/user_routes.py:63 | `str(_id)` parses back to the same id |
| DateTimes.Strptime | backend/app/appointment_routes.py:47 | `strptime` accepts exactly the canonical layout naming a real date and time with a year from 1, and gives a valid Python datetime |
| DateTimes.Strftime | backend/app/user_routes.py:114 | for a valid timestamp with a four-digit year the output has the wire shape: 19 characters, digits in every field, and '-', '-', ' ', ':', ':' at indices 4, 7, 10, 13 and 16 |
| DateTimes.StrftimeParseRoundTrip | backend/app/user_routes.py:114 | the date a listing sends parses back to the same second |
| DateTimes.ParseStrftimeRoundTrip | backend/app/appointment_routes.py:47 | a string `strptime` accepts is the `strftime` of what it parsed |
| Ecma.IsoString | frontend/src/pages/BarberSchedule.js:104 | for a four-digit year `toISOString` is 24 characters, with 'T' at index 10, '.' at 19 and 'Z' at 23 |
| Ecma.DateStringSameDay | frontend/src/pages/BarberSchedule.js:93 | `toDateString` strings agree exactly when the dates fall on the same day |

## Left out

- JSON floats, arrays and objects, and request bodies that are not objects. Bodies are
  maps to null, booleans, integers and strings.
- Python's `strptime` also accepts one-digit fields and surrounding variants. The model
  accepts only the canonical 19-character layout. `strftime` for years below 1000 is
  modelled with four padded digits.
- JavaScript `new Date(string)` parsing is modelled only for the canonical
  `YYYY-MM-DD HH:MM:SS` layout. Local time is taken to be UTC, so the shift between
  `getHours` and `new Date(string)` (local) and `toISOString` (UTC) is not modelled.
  Off UTC the page sends the UTC wall-clock time, the server returns it unchanged, and
  `new Date` reads it back as local time. The picker then hides the slot shifted by
  the offset, not the booked one. So the exact-string check can reject a slot the
  picker offered. For example, at UTC-3 a booking of local 14:00 comes back as
  "17:00:00", so 14:00 stays offered, and picking it again is refused.
  `SlotHiddenIffBooked` and `DateTakenImpliesSlotHidden` state the UTC case only.
- Salted password hashing, JWT signing and expiry. A hash is its secret, and an
  identity is the map a token carries.
- How bson makes a new ObjectId. `ObjectId(None)` on a null token id generates one,
  and the model takes that id as the parameter `generated` of
  `CreateAppointmentReply` and `CreateAppointment`. The model does not promise that
  it differs from stored ids.
- react-datepicker's 30-minute interval, `minDate` and rendering. Alerts, console
  output, `localStorage` and page effects are also left out. The API replies are
  parameters of `HandleConfirmAppointment`.
- The data-loading effects of the schedule page, and the loyalty-points endpoints.
  The page imports `redeemFreeServiceChoice` and `getUserPoints`, but
  frontend/src/services/api.js (lines 72-139) exports neither. So the points fetch
  always fails and `points` stays 0. A redeem attempt can only end in the catch
  branch. The model keeps points as a field of the page. The API reply is a
  parameter of `HandleConfirmAppointment`, and its `Thrown` case covers that catch.
- ObjectId structure: ids come from a counter in `Db`. The id-string round trip holds
  for ids below 16^24.
- Concurrency between requests. Each handler runs atomically on `Db`.
- ServiceRoutes.DeleteService and ServiceRoutes.RegisterService are not behind any
  role check, as in the source.
