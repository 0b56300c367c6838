/** The `/appointments/add` route: the guard sequence of
    `create_appointment` and the document it inserts. */
module AppointmentRoutes {

  import opened Wrappers
  import opened Json
  import opened DateTimes
  import opened ObjectIds
  import opened Store

  const MsgAppointmentRequired: string := "Barber, service, and date are required"
  const MsgInvalidBarber: string := "Invalid barber ID"
  const MsgBarberNotFound: string := "Barber not found"
  const MsgInvalidService: string := "Invalid service ID"
  const MsgAppointmentCreated: string := "Appointment created successfully!"
  const StatusScheduled: string := "scheduled"

  /** The fields of the appointment a successful request inserts. */
  datatype NewAppointment = NewAppointment(userId: ObjectId, barberId: ObjectId, serviceId: ObjectId,
                                           date: DateTime)

  predicate AppointmentFieldsPresent(body: Body)
  {
    !Falsy(Get(body, "barber_id")) && !Falsy(Get(body, "service_id")) && !Falsy(Get(body, "date"))
  }

  /** `datetime.strptime(date, ...)` on a request value: anything but a
      string in the canonical layout raises. */
  function ParseDateJson(j: Json): (r: Option<DateTime>)
    ensures r.Some? <==> j.JStr? && Strptime(j.s).Some?
    ensures r.Some? ==> ValidPyDateTime(r.value)
  {
    if j.JStr? then Strptime(j.s) else None
  }

  /** `ObjectId(user_id)` on the token's id: `ObjectId(None)` makes a new id,
      here `generated`; any other value must be a valid id string. */
  function TokenUserId(j: Json, generated: ObjectId): (r: Option<ObjectId>)
    ensures r.Some? <==> j == JNull || IsValidId(j)
    ensures j == JNull ==> r == Some(generated)
    ensures IsValidId(j) ==> r == ParseIdJson(j)
  {
    if j == JNull then Some(generated) else ParseIdJson(j)
  }

  /** The outcome of `create_appointment` against the stored users: the
      identity must carry an id; then the fields, the barber id's format,
      the barber's existence and the service id's format are checked in
      that order, the first failure giving the reply; the service itself is
      never looked up. A token id that is neither null nor an ObjectId, and
      a date `strptime` rejects, both raise; a null token id books under the
      id `ObjectId()` generates, passed in as `generated`. */
  function CreateAppointmentReply(users: seq<User>, identity: Identity, body: Body, generated: ObjectId)
    : (r: Reply<NewAppointment>)
    ensures "id" !in identity ==> r == Failure(500, InternalError)
    ensures "id" in identity ==>
              (r == Failure(400, MsgAppointmentRequired) <==> !AppointmentFieldsPresent(body))
    ensures r == Failure(400, MsgInvalidBarber)
        <==> "id" in identity && AppointmentFieldsPresent(body) && !IsValidId(Get(body, "barber_id"))
    ensures r == Failure(404, MsgBarberNotFound)
        <==> && "id" in identity && AppointmentFieldsPresent(body) && IsValidId(Get(body, "barber_id"))
             && FindBarber(users, ParseIdJson(Get(body, "barber_id")).value).None?
    ensures r == Failure(400, MsgInvalidService)
        <==> && "id" in identity && AppointmentFieldsPresent(body) && IsValidId(Get(body, "barber_id"))
             && FindBarber(users, ParseIdJson(Get(body, "barber_id")).value).Some?
             && !IsValidId(Get(body, "service_id"))
    ensures r.Success?
        <==> && "id" in identity && AppointmentFieldsPresent(body) && IsValidId(Get(body, "barber_id"))
             && FindBarber(users, ParseIdJson(Get(body, "barber_id")).value).Some?
             && IsValidId(Get(body, "service_id"))
             && TokenUserId(identity["id"], generated).Some? && ParseDateJson(Get(body, "date")).Some?
    ensures && "id" in identity && AppointmentFieldsPresent(body) && IsValidId(Get(body, "barber_id"))
            && FindBarber(users, ParseIdJson(Get(body, "barber_id")).value).Some?
            && IsValidId(Get(body, "service_id"))
            && (!(identity["id"] == JNull || IsValidId(identity["id"])) || ParseDateJson(Get(body, "date")).None?)
            ==> r == Failure(500, InternalError)
    ensures r.Success? ==>
              && r.status == 201
              && r.value == NewAppointment(TokenUserId(identity["id"], generated).value,
                                           ParseIdJson(Get(body, "barber_id")).value,
                                           ParseIdJson(Get(body, "service_id")).value,
                                           ParseDateJson(Get(body, "date")).value)
              && ValidPyDateTime(r.value.date)
              && exists i :: 0 <= i < |users| && users[i].id == r.value.barberId && users[i].role == "barber"
  {
    if "id" !in identity then Failure(500, InternalError)
    else if !AppointmentFieldsPresent(body) then Failure(400, MsgAppointmentRequired)
    else if !IsValidId(Get(body, "barber_id")) then Failure(400, MsgInvalidBarber)
    else
      var barberId := ParseIdJson(Get(body, "barber_id")).value;
      var barber := FindBarber(users, barberId);
      if barber.None? then Failure(404, MsgBarberNotFound)
      else if !IsValidId(Get(body, "service_id")) then Failure(400, MsgInvalidService)
      else
        var userId := TokenUserId(identity["id"], generated);
        var date := ParseDateJson(Get(body, "date"));
        if userId.None? || date.None? then Failure(500, InternalError)
        else
          assert barber.value in users;
          Success(201, NewAppointment(userId.value, barberId,
                                      ParseIdJson(Get(body, "service_id")).value, date.value))
  }

  /** `create_appointment`: on success exactly one appointment is appended,
      with the caller's id from the token (or the generated one for a null
      id) and the status "scheduled"; on any error nothing changes. */
  method CreateAppointment(db: Db, identity: Identity, body: Body, generated: ObjectId) returns (reply: Reply<string>)
    requires db.Valid()
    modifies db
    ensures db.Valid()
    ensures CreateAppointmentReply(old(db.users), identity, body, generated).Failure? ==>
              && reply == Failure(CreateAppointmentReply(old(db.users), identity, body, generated).status,
                                  CreateAppointmentReply(old(db.users), identity, body, generated).msg)
              && db.appointments == old(db.appointments) && db.nextId == old(db.nextId)
    ensures CreateAppointmentReply(old(db.users), identity, body, generated).Success? ==>
              var a := CreateAppointmentReply(old(db.users), identity, body, generated).value;
              && reply == Success(201, MsgAppointmentCreated)
              && db.appointments == old(db.appointments)
                                    + [Appointment(old(db.nextId), a.userId, a.barberId, a.serviceId, a.date,
                                                   StatusScheduled)]
    ensures db.users == old(db.users) && db.services == old(db.services)
  {
    if "id" !in identity {
      return Failure(500, InternalError);
    }
    var userId := identity["id"];

    var barberId := Get(body, "barber_id");
    var serviceId := Get(body, "service_id");
    var date := Get(body, "date");

    if Falsy(barberId) || Falsy(serviceId) || Falsy(date) {
      return Failure(400, MsgAppointmentRequired);
    }
    if !IsValidId(barberId) {
      return Failure(400, MsgInvalidBarber);
    }
    var barber := FindBarber(db.users, ParseIdJson(barberId).value);
    if barber.None? {
      return Failure(404, MsgBarberNotFound);
    }
    if !IsValidId(serviceId) {
      return Failure(400, MsgInvalidService);
    }

    var userObjectId := TokenUserId(userId, generated);
    var parsedDate := ParseDateJson(date);
    if userObjectId.None? || parsedDate.None? {
      return Failure(500, InternalError);
    }
    var id := db.InsertAppointment(userObjectId.value, ParseIdJson(barberId).value,
                                   ParseIdJson(serviceId).value, parsedDate.value, StatusScheduled);
    return Success(201, MsgAppointmentCreated);
  }

  /** The route has no conflict check: the same accepted request sent twice
      books the same barber at the same second twice. */
  method BookTwice(db: Db, identity: Identity, body: Body, generated1: ObjectId, generated2: ObjectId)
    returns (first: Reply<string>, second: Reply<string>)
    requires db.Valid()
    requires CreateAppointmentReply(db.users, identity, body, generated1).Success?
    modifies db
    ensures first == second == Success(201, MsgAppointmentCreated)
    ensures |db.appointments| == |old(db.appointments)| + 2
    ensures var a, b := db.appointments[|db.appointments| - 2], db.appointments[|db.appointments| - 1];
            a.barberId == b.barberId && a.date == b.date && a.id != b.id
  {
    first := CreateAppointment(db, identity, body, generated1);
    second := CreateAppointment(db, identity, body, generated2);
  }
}
