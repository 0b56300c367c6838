/** The `/user` routes: registration and login, the access rules of the
    appointment and barber listings, the listings themselves, `check_role`,
    and the seeding of the ten default barbers. */
module UserRoutes {

  import opened Wrappers
  import opened Json
  import opened Digits
  import opened DateTimes
  import opened ObjectIds
  import opened Store

  const MsgRegisterRequired: string := "Email, password, fullname, and role required"
  const MsgInvalidRole: string := "Invalid role. Must be 'user' or 'barber'"
  const MsgUserExists: string := "User already exists with this email"
  const MsgRegistered: string := "User registered successfully!"
  const MsgLoginRequired: string := "Email and password required"
  const MsgBadCredentials: string := "Invalid email or password"
  const MsgInsufficient: string := "Access forbidden: Insufficient permissions"
  const MsgBadBarberId: string := "Invalid barber ID format"
  const MsgBarberNotFound: string := "Barber not found"
  const MsgNoBarberAppointments: string := "No appointments found for this barber"
  const MsgOwnOnly: string := "Access forbidden: You can only view your own appointments"
  const MsgBadUserId: string := "Invalid user ID format"
  const MsgNoUserAppointments: string := "No appointments found for this user"
  const MsgNoRole: string := "User role not found"
  const MsgBarbersRegistered: string := "Barbers registered successfully!"
  const DefaultPassword: string := "password123"

  /** `role in ['user', 'barber']`. */
  predicate IsRole(j: Json)
  {
    j == JStr("user") || j == JStr("barber")
  }

  // ---------------------------------------------------------------- register

  predicate RegisterFieldsPresent(body: Body)
  {
    && !Falsy(Get(body, "email")) && !Falsy(Get(body, "password"))
    && !Falsy(Get(body, "fullname")) && !Falsy(Get(body, "role"))
  }

  /** The reply of `register` against the users already stored: the guards
      in order, then the hash, which raises on a password that is not a
      string. */
  function RegisterReply(users: seq<User>, body: Body): (r: Reply<string>)
    ensures r == Failure(400, MsgRegisterRequired) <==> !RegisterFieldsPresent(body)
    ensures r == Failure(400, MsgInvalidRole)
        <==> RegisterFieldsPresent(body) && !IsRole(Get(body, "role"))
    ensures r == Failure(409, MsgUserExists)
        <==> RegisterFieldsPresent(body) && IsRole(Get(body, "role")) && HasEmail(users, Get(body, "email"))
    ensures r == Failure(500, InternalError)
        <==> RegisterFieldsPresent(body) && IsRole(Get(body, "role")) && !HasEmail(users, Get(body, "email"))
             && !Get(body, "password").JStr?
    ensures r.Success?
        <==> RegisterFieldsPresent(body) && IsRole(Get(body, "role")) && !HasEmail(users, Get(body, "email"))
             && Get(body, "password").JStr?
    ensures r.Success? ==> r == Success(201, MsgRegistered)
  {
    if !RegisterFieldsPresent(body) then Failure(400, MsgRegisterRequired)
    else if !IsRole(Get(body, "role")) then Failure(400, MsgInvalidRole)
    else if FindUserByEmail(users, Get(body, "email")).Some? then Failure(409, MsgUserExists)
    else if !Get(body, "password").JStr? then Failure(500, InternalError)
    else Success(201, MsgRegistered)
  }

  /** The document a successful `register` inserts under id `id`. */
  function NewUser(id: ObjectId, body: Body): User
    requires Get(body, "password").JStr? && Get(body, "role").JStr?
  {
    User(id, Get(body, "email"), GeneratePasswordHash(Get(body, "password").s),
         Get(body, "fullname"), Get(body, "role").s)
  }

  /** `register`: on success exactly one user is appended, holding the hash
      of the password, and emails stay unique; on any error nothing
      changes. */
  method Register(db: Db, body: Body) returns (reply: Reply<string>)
    requires db.Valid()
    modifies db
    ensures db.Valid()
    ensures reply == RegisterReply(old(db.users), body)
    ensures reply.Success? ==>
              db.users == old(db.users) + [NewUser(old(db.nextId), body)]
              && NewUser(old(db.nextId), body).role in {"user", "barber"}
    ensures reply.Failure? ==> db.users == old(db.users) && db.nextId == old(db.nextId)
    ensures db.services == old(db.services) && db.appointments == old(db.appointments)
    ensures UniqueEmails(old(db.users)) ==> UniqueEmails(db.users)
  {
    var email := Get(body, "email");
    var password := Get(body, "password");
    var fullname := Get(body, "fullname");
    var role := Get(body, "role");

    if Falsy(email) || Falsy(password) || Falsy(fullname) || Falsy(role) {
      return Failure(400, MsgRegisterRequired);
    }
    if !IsRole(role) {
      return Failure(400, MsgInvalidRole);
    }
    if FindUserByEmail(db.users, email).Some? {
      return Failure(409, MsgUserExists);
    }
    if !password.JStr? {
      return Failure(500, InternalError);
    }
    var hashed := GeneratePasswordHash(password.s);
    if UniqueEmails(db.users) {
      AppendKeepsUniqueEmails(db.users, User(db.nextId, email, hashed, fullname, role.s));
    }
    var id := db.InsertUser(email, hashed, fullname, role.s);
    return Success(201, MsgRegistered);
  }

  // ------------------------------------------------------------------- login

  /** What a successful login hands back: the identity the access token
      carries, and the user's id. */
  datatype Session = Session(identity: Identity, userId: string)

  /** The identity put in the token of user `u`. */
  function IdentityOf(u: User): (identity: Identity)
    ensures identity.Keys == {"id", "email", "role"}
    ensures u.id < Pow16(IdDigits) ==> ParseIdJson(identity["id"]) == Some(u.id)
    ensures identity["email"] == u.email && identity["role"] == JStr(u.role)
  {
    var identity := map["id" := JStr(IdString(u.id)), "email" := u.email, "role" := JStr(u.role)];
    if u.id < Pow16(IdDigits) then
      IdStringRoundTrip(u.id);
      identity
    else identity
  }

  /** `login`: 400 on a missing field, 200 with the identity of the first
      user with that email when the hash check passes, 401 otherwise; a
      password that is not a string makes the hash check raise. */
  function Login(users: seq<User>, body: Body): (r: Reply<Session>)
    ensures r == Failure(400, MsgLoginRequired)
        <==> Falsy(Get(body, "email")) || Falsy(Get(body, "password"))
    ensures r.Success?
        <==> && !Falsy(Get(body, "email")) && !Falsy(Get(body, "password"))
             && FindUserByEmail(users, Get(body, "email")).Some? && Get(body, "password").JStr?
             && CheckPasswordHash(FindUserByEmail(users, Get(body, "email")).value.password,
                                  Get(body, "password").s)
    ensures r.Success? ==>
              var u := FindUserByEmail(users, Get(body, "email")).value;
              r == Success(200, Session(IdentityOf(u), IdString(u.id)))
    ensures r == Failure(401, MsgBadCredentials)
        <==> && !Falsy(Get(body, "email")) && !Falsy(Get(body, "password"))
             && (|| !HasEmail(users, Get(body, "email"))
                 || (&& Get(body, "password").JStr?
                     && !CheckPasswordHash(FindUserByEmail(users, Get(body, "email")).value.password,
                                           Get(body, "password").s)))
    ensures r == Failure(500, InternalError)
        <==> && !Falsy(Get(body, "email")) && !Falsy(Get(body, "password"))
             && HasEmail(users, Get(body, "email")) && !Get(body, "password").JStr?
  {
    var email := Get(body, "email");
    var password := Get(body, "password");
    if Falsy(email) || Falsy(password) then Failure(400, MsgLoginRequired)
    else
      match FindUserByEmail(users, email)
      case None => Failure(401, MsgBadCredentials)
      case Some(u) =>
        if !password.JStr? then Failure(500, InternalError)
        else if CheckPasswordHash(u.password, password.s) then
          Success(200, Session(IdentityOf(u), IdString(u.id)))
        else Failure(401, MsgBadCredentials)
  }

  /** The first user with a given email, after appending a user with a
      fresh email, is that new user. */
  lemma FindAppendedUser(users: seq<User>, u: User)
    requires !HasEmail(users, u.email)
    ensures FindUserByEmail(users + [u], u.email) == Some(u)
  {
    var t := users + [u];
    assert forall j :: 0 <= j < |users| ==> t[j] == users[j];
    assert t[|users|] == u;
  }

  /** Registering and then logging in with the same email: the registered
      password opens a session for the new user, any other string password
      is refused with 401. */
  lemma RegisterThenLogin(users: seq<User>, body: Body, id: ObjectId, login: Body)
    requires RegisterReply(users, body).Success?
    requires Get(login, "email") == Get(body, "email")
    ensures Get(login, "password") == Get(body, "password") ==>
              Login(users + [NewUser(id, body)], login)
              == Success(200, Session(IdentityOf(NewUser(id, body)), IdString(id)))
    ensures Get(login, "password").JStr? && Get(login, "password") != Get(body, "password")
            && !Falsy(Get(login, "password")) ==>
              Login(users + [NewUser(id, body)], login) == Failure(401, MsgBadCredentials)
  {
    FindAppendedUser(users, NewUser(id, body));
  }

  // ----------------------------------------------------------- access rules

  /** Why a route refuses a caller: the status and the message. */
  datatype Denial = Denial(status: int, msg: string)

  /** The guard of `get_barber_appointments`: barbers and users pass; an
      identity without a role makes the lookup raise. */
  function BarberAppointmentsAccess(identity: Identity): (d: Option<Denial>)
    ensures d.None? <==> "role" in identity && IsRole(identity["role"])
    ensures d == Some(Denial(403, MsgInsufficient)) <==> "role" in identity && !IsRole(identity["role"])
    ensures d == Some(Denial(500, InternalError)) <==> "role" !in identity
  {
    if "role" !in identity then Some(Denial(500, InternalError))
    else if !IsRole(identity["role"]) then Some(Denial(403, MsgInsufficient))
    else None
  }

  /** The guard of `get_user_appointments`: the caller's own id passes, and
      so does any caller whose role is 'user'; the role is only looked up
      when the ids differ. */
  function UserAppointmentsAccess(identity: Identity, userId: string): (d: Option<Denial>)
    ensures d.None?
        <==> "id" in identity
             && (identity["id"] == JStr(userId) || ("role" in identity && identity["role"] == JStr("user")))
    ensures d == Some(Denial(403, MsgOwnOnly))
        <==> "id" in identity && identity["id"] != JStr(userId)
             && "role" in identity && identity["role"] != JStr("user")
    ensures d == Some(Denial(500, InternalError))
        <==> "id" !in identity || (identity["id"] != JStr(userId) && "role" !in identity)
  {
    if "id" !in identity then Some(Denial(500, InternalError))
    else if identity["id"] == JStr(userId) then None
    else if "role" !in identity then Some(Denial(500, InternalError))
    else if identity["role"] != JStr("user") then Some(Denial(403, MsgOwnOnly))
    else None
  }

  /** The guard of `get_barbers`: only the role 'user' passes. */
  function BarbersAccess(identity: Identity): (d: Option<Denial>)
    ensures d.None? <==> "role" in identity && identity["role"] == JStr("user")
    ensures d == Some(Denial(403, MsgInsufficient)) <==> "role" in identity && identity["role"] != JStr("user")
    ensures d == Some(Denial(500, InternalError)) <==> "role" !in identity
  {
    if "role" !in identity then Some(Denial(500, InternalError))
    else if identity["role"] != JStr("user") then Some(Denial(403, MsgInsufficient))
    else None
  }

  /** `check_role`: the role when the identity has one, 400 otherwise. */
  function CheckRole(identity: Identity): (r: Reply<Json>)
    ensures r.Success? <==> "role" in identity
    ensures r.Success? ==> r == Success(200, identity["role"])
    ensures r.Failure? ==> r == Failure(400, MsgNoRole)
  {
    if "role" in identity then Success(200, identity["role"]) else Failure(400, MsgNoRole)
  }

  /** For the identity a login issues: everyone may list their own
      appointments; a 'user' may list anyone's, a barber nobody else's; only
      a 'user' may list the barbers; both roles may list a barber's
      appointments; `check_role` returns the stored role. */
  lemma LoginIdentityAccess(u: User, other: string)
    requires u.role == "user" || u.role == "barber"
    ensures UserAppointmentsAccess(IdentityOf(u), IdString(u.id)).None?
    ensures u.role == "user" ==> UserAppointmentsAccess(IdentityOf(u), other).None?
    ensures u.role == "barber" && other != IdString(u.id) ==>
              UserAppointmentsAccess(IdentityOf(u), other) == Some(Denial(403, MsgOwnOnly))
    ensures BarbersAccess(IdentityOf(u)).None? <==> u.role == "user"
    ensures BarberAppointmentsAccess(IdentityOf(u)).None?
    ensures CheckRole(IdentityOf(u)) == Success(200, JStr(u.role))
  {
    var identity := IdentityOf(u);
    assert "id" in identity && "role" in identity;
    assert identity["role"] == JStr(u.role) && identity["id"] == JStr(IdString(u.id));
  }

  // --------------------------------------------------------------- listings

  /** A route's list: a note when it is empty, and the entries. */
  datatype Listing<T> = Listing(note: Option<string>, items: seq<T>)

  /** One entry of `get_barber_appointments`. */
  datatype BarberAppointmentView = BarberAppointmentView(
    id: string, serviceId: string, date: string, status: string,
    userName: Json, serviceName: Json, serviceValue: Json, serviceDuration: Json)

  /** The entry for appointment `a`, joined with its client and service;
      a missing document reads as the matching "Unknown ..." string. */
  function BarberView(users: seq<User>, services: seq<Service>, a: Appointment): BarberAppointmentView
    requires ValidPyDateTime(a.date)
  {
    var user := FindUserById(users, a.userId);
    var service := FindServiceById(services, a.serviceId);
    BarberAppointmentView(
      IdString(a.id), IdString(a.serviceId), Strftime(a.date), a.status,
      if user.Some? then user.value.fullname else JStr("Unknown User"),
      if service.Some? then service.value.name else JStr("Unknown Service"),
      if service.Some? then service.value.value else JStr("Unknown Value"),
      if service.Some? then service.value.duration else JStr("Unknown Duration"))
  }

  /** The entry carries the stored date as a string that parses back to
      it, the ids as strings that parse back, and the client's name and the
      service's fields from documents with those ids, or the "Unknown ..."
      placeholders when no document has the id. */
  lemma BarberViewJoins(users: seq<User>, services: seq<Service>, a: Appointment)
    requires ValidPyDateTime(a.date)
    ensures var v := BarberView(users, services, a);
            ParseFields(v.date) == Some(a.date) && v.status == a.status
    ensures var v := BarberView(users, services, a);
            && (a.id < Pow16(IdDigits) ==> ParseId(v.id) == Some(a.id))
            && (a.serviceId < Pow16(IdDigits) ==> ParseId(v.serviceId) == Some(a.serviceId))
    ensures var v := BarberView(users, services, a);
            (forall i :: 0 <= i < |users| ==> users[i].id != a.userId) ==> v.userName == JStr("Unknown User")
    ensures var v := BarberView(users, services, a);
            (exists i :: 0 <= i < |users| && users[i].id == a.userId)
            ==> exists u :: u in users && u.id == a.userId && v.userName == u.fullname
    ensures var v := BarberView(users, services, a);
            (forall i :: 0 <= i < |services| ==> services[i].id != a.serviceId)
            ==> && v.serviceName == JStr("Unknown Service") && v.serviceValue == JStr("Unknown Value")
                && v.serviceDuration == JStr("Unknown Duration")
    ensures var v := BarberView(users, services, a);
            (exists i :: 0 <= i < |services| && services[i].id == a.serviceId)
            ==> exists sv :: && sv in services && sv.id == a.serviceId && v.serviceName == sv.name
                             && v.serviceValue == sv.value && v.serviceDuration == sv.duration
  {
    StrftimeParseRoundTrip(a.date);
    assert a.id < Pow16(IdDigits) ==> ParseId(IdString(a.id)) == Some(a.id) by {
      if a.id < Pow16(IdDigits) {
        IdStringRoundTrip(a.id);
      }
    }
    assert a.serviceId < Pow16(IdDigits) ==> ParseId(IdString(a.serviceId)) == Some(a.serviceId) by {
      if a.serviceId < Pow16(IdDigits) {
        IdStringRoundTrip(a.serviceId);
      }
    }
  }

  /** `appointments_collection.find({"barber_id": id})`. */
  function AppointmentsOfBarber(appointments: seq<Appointment>, barber: ObjectId): seq<Appointment>
  {
    Filter(appointments, (a: Appointment) => a.barberId == barber)
  }

  /** The entries of barber `barber`'s appointments, in stored order. */
  function BarberViews(users: seq<User>, services: seq<Service>, appointments: seq<Appointment>,
               barber: ObjectId): seq<BarberAppointmentView>
    requires DatesValid(appointments)
  {
    var found := AppointmentsOfBarber(appointments, barber);
    assert forall k :: 0 <= k < |found| ==> found[k] in appointments;
    seq(|found|, k requires 0 <= k < |found| => BarberView(users, services, found[k]))
  }

  /** Building the list one appointment at a time, as the route's loop
      does. */
  lemma BarberViewsSnoc(users: seq<User>, services: seq<Service>, appointments: seq<Appointment>, barber: ObjectId)
    requires DatesValid(appointments) && appointments != []
    ensures var n := |appointments| - 1;
            var a := appointments[n];
            BarberViews(users, services, appointments, barber)
            == BarberViews(users, services, appointments[..n], barber)
               + (if a.barberId == barber then [BarberView(users, services, a)] else [])
  {
    var n := |appointments| - 1;
    assert AppointmentsOfBarber(appointments, barber)
        == AppointmentsOfBarber(appointments[..n], barber) + (if appointments[n].barberId == barber then [appointments[n]] else []);
  }

  /** The query yields exactly the barber's appointments, in stored order,
      so the listing is empty exactly when the barber has none. */
  lemma BarberViewsEmpty(users: seq<User>, services: seq<Service>, appointments: seq<Appointment>, barber: ObjectId)
    requires DatesValid(appointments)
    ensures forall a :: a in AppointmentsOfBarber(appointments, barber) <==> a in appointments && a.barberId == barber
    ensures BarberViews(users, services, appointments, barber) == []
        <==> forall i :: 0 <= i < |appointments| ==> appointments[i].barberId != barber
  {
    var found := AppointmentsOfBarber(appointments, barber);
    if found != [] {
      assert found[0] in appointments;
    }
  }

  /** `get_barber_appointments`: the access guard, the id format, the
      barber's existence, then every appointment of that barber with its
      joins, and a note when there are none. */
  method GetBarberAppointments(db: Db, identity: Identity, barberId: string)
    returns (reply: Reply<Listing<BarberAppointmentView>>)
    requires db.Valid()
    ensures BarberAppointmentsAccess(identity).Some? ==>
              reply == Failure(BarberAppointmentsAccess(identity).value.status,
                               BarberAppointmentsAccess(identity).value.msg)
    ensures BarberAppointmentsAccess(identity).None? && ParseId(barberId).None? ==>
              reply == Failure(400, MsgBadBarberId)
    ensures BarberAppointmentsAccess(identity).None? && ParseId(barberId).Some?
            && FindBarber(db.users, ParseId(barberId).value).None? ==>
              reply == Failure(404, MsgBarberNotFound)
    ensures BarberAppointmentsAccess(identity).None? && ParseId(barberId).Some?
            && FindBarber(db.users, ParseId(barberId).value).Some? ==>
              && reply.Success? && reply.status == 200
              && reply.value.items == BarberViews(db.users, db.services, db.appointments, ParseId(barberId).value)
              && (reply.value.items == [] ==> reply.value.note == Some(MsgNoBarberAppointments))
              && (reply.value.items != [] ==> reply.value.note == None)
  {
    var denial := BarberAppointmentsAccess(identity);
    if denial.Some? {
      return Failure(denial.value.status, denial.value.msg);
    }
    var parsed := ParseId(barberId);
    if parsed.None? {
      return Failure(400, MsgBadBarberId);
    }
    var barberObjectId := parsed.value;
    if FindBarber(db.users, barberObjectId).None? {
      return Failure(404, MsgBarberNotFound);
    }

    var appointmentsList: seq<BarberAppointmentView> := [];
    var i := 0;
    while i < |db.appointments|
      invariant 0 <= i <= |db.appointments|
      invariant appointmentsList == BarberViews(db.users, db.services, db.appointments[..i], barberObjectId)
    {
      var appointment := db.appointments[i];
      assert db.appointments[..i + 1][..i] == db.appointments[..i];
      BarberViewsSnoc(db.users, db.services, db.appointments[..i + 1], barberObjectId);
      if appointment.barberId == barberObjectId {
        appointmentsList := appointmentsList + [BarberView(db.users, db.services, appointment)];
      }
      i := i + 1;
    }
    assert db.appointments[..i] == db.appointments;
    if appointmentsList == [] {
      return Success(200, Listing(Some(MsgNoBarberAppointments), []));
    }
    return Success(200, Listing(None, appointmentsList));
  }

  /** One entry of `get_user_appointments`. */
  datatype UserAppointmentView = UserAppointmentView(
    serviceId: string, serviceName: Json, serviceDuration: Json, serviceValue: Json,
    barber: Json, date: string, status: string)

  /** The entry for appointment `a`, joined with its barber (a user with the
      barber role) and its service; a missing document reads "Unknown". */
  function UserView(users: seq<User>, services: seq<Service>, a: Appointment): UserAppointmentView
    requires ValidPyDateTime(a.date)
  {
    var barber := FindBarber(users, a.barberId);
    var service := FindServiceById(services, a.serviceId);
    UserAppointmentView(
      IdString(a.serviceId),
      if service.Some? then service.value.name else JStr("Unknown"),
      if service.Some? then service.value.duration else JStr("Unknown"),
      if service.Some? then service.value.value else JStr("Unknown"),
      if barber.Some? then barber.value.fullname else JStr("Unknown"),
      Strftime(a.date), a.status)
  }

  /** The entry carries the stored date as a string that parses back to
      it, the service id as a string that parses back, and the barber's name
      and the service's fields from documents with those ids, or "Unknown"
      when no such document exists. */
  lemma UserViewJoins(users: seq<User>, services: seq<Service>, a: Appointment)
    requires ValidPyDateTime(a.date)
    ensures var v := UserView(users, services, a);
            ParseFields(v.date) == Some(a.date) && v.status == a.status
    ensures var v := UserView(users, services, a);
            a.serviceId < Pow16(IdDigits) ==> ParseId(v.serviceId) == Some(a.serviceId)
    ensures var v := UserView(users, services, a);
            (forall i :: 0 <= i < |users| ==> users[i].id != a.barberId || users[i].role != "barber")
            ==> v.barber == JStr("Unknown")
    ensures var v := UserView(users, services, a);
            (exists i :: 0 <= i < |users| && users[i].id == a.barberId && users[i].role == "barber")
            ==> exists u :: u in users && u.id == a.barberId && u.role == "barber" && v.barber == u.fullname
    ensures var v := UserView(users, services, a);
            (forall i :: 0 <= i < |services| ==> services[i].id != a.serviceId)
            ==> && v.serviceName == JStr("Unknown") && v.serviceValue == JStr("Unknown")
                && v.serviceDuration == JStr("Unknown")
    ensures var v := UserView(users, services, a);
            (exists i :: 0 <= i < |services| && services[i].id == a.serviceId)
            ==> exists sv :: && sv in services && sv.id == a.serviceId && v.serviceName == sv.name
                             && v.serviceValue == sv.value && v.serviceDuration == sv.duration
  {
    StrftimeParseRoundTrip(a.date);
    assert a.serviceId < Pow16(IdDigits) ==> ParseId(IdString(a.serviceId)) == Some(a.serviceId) by {
      if a.serviceId < Pow16(IdDigits) {
        IdStringRoundTrip(a.serviceId);
      }
    }
  }

  /** `appointments_collection.find({"user_id": id})`. */
  function AppointmentsOfUser(appointments: seq<Appointment>, user: ObjectId): seq<Appointment>
  {
    Filter(appointments, (a: Appointment) => a.userId == user)
  }

  /** The entries of user `user`'s appointments, in stored order. */
  function UserViews(users: seq<User>, services: seq<Service>, appointments: seq<Appointment>,
               user: ObjectId): seq<UserAppointmentView>
    requires DatesValid(appointments)
  {
    var found := AppointmentsOfUser(appointments, user);
    assert forall k :: 0 <= k < |found| ==> found[k] in appointments;
    seq(|found|, k requires 0 <= k < |found| => UserView(users, services, found[k]))
  }

  /** Building the list one appointment at a time, as the route's loop
      does. */
  lemma UserViewsSnoc(users: seq<User>, services: seq<Service>, appointments: seq<Appointment>, user: ObjectId)
    requires DatesValid(appointments) && appointments != []
    ensures var n := |appointments| - 1;
            var a := appointments[n];
            UserViews(users, services, appointments, user)
            == UserViews(users, services, appointments[..n], user)
               + (if a.userId == user then [UserView(users, services, a)] else [])
  {
    var n := |appointments| - 1;
    assert AppointmentsOfUser(appointments, user)
        == AppointmentsOfUser(appointments[..n], user) + (if appointments[n].userId == user then [appointments[n]] else []);
  }

  /** The query yields exactly the user's appointments, in stored order,
      so the listing is empty exactly when the user has none. */
  lemma UserViewsEmpty(users: seq<User>, services: seq<Service>, appointments: seq<Appointment>, user: ObjectId)
    requires DatesValid(appointments)
    ensures forall a :: a in AppointmentsOfUser(appointments, user) <==> a in appointments && a.userId == user
    ensures UserViews(users, services, appointments, user) == []
        <==> forall i :: 0 <= i < |appointments| ==> appointments[i].userId != user
  {
    var found := AppointmentsOfUser(appointments, user);
    if found != [] {
      assert found[0] in appointments;
    }
  }

  /** `get_user_appointments`: the access guard, the id format, then every
      appointment of that user with its joins, and a note when there are
      none. */
  method GetUserAppointments(db: Db, identity: Identity, userId: string)
    returns (reply: Reply<Listing<UserAppointmentView>>)
    requires db.Valid()
    ensures UserAppointmentsAccess(identity, userId).Some? ==>
              reply == Failure(UserAppointmentsAccess(identity, userId).value.status,
                               UserAppointmentsAccess(identity, userId).value.msg)
    ensures UserAppointmentsAccess(identity, userId).None? && ParseId(userId).None? ==>
              reply == Failure(400, MsgBadUserId)
    ensures UserAppointmentsAccess(identity, userId).None? && ParseId(userId).Some? ==>
              && reply.Success? && reply.status == 200
              && reply.value.items == UserViews(db.users, db.services, db.appointments, ParseId(userId).value)
              && (reply.value.items == [] ==> reply.value.note == Some(MsgNoUserAppointments))
              && (reply.value.items != [] ==> reply.value.note == None)
  {
    var denial := UserAppointmentsAccess(identity, userId);
    if denial.Some? {
      return Failure(denial.value.status, denial.value.msg);
    }
    var parsed := ParseId(userId);
    if parsed.None? {
      return Failure(400, MsgBadUserId);
    }
    var userIdObject := parsed.value;

    var appointmentsList: seq<UserAppointmentView> := [];
    var i := 0;
    while i < |db.appointments|
      invariant 0 <= i <= |db.appointments|
      invariant appointmentsList == UserViews(db.users, db.services, db.appointments[..i], userIdObject)
    {
      var appointment := db.appointments[i];
      assert db.appointments[..i + 1][..i] == db.appointments[..i];
      UserViewsSnoc(db.users, db.services, db.appointments[..i + 1], userIdObject);
      if appointment.userId == userIdObject {
        appointmentsList := appointmentsList + [UserView(db.users, db.services, appointment)];
      }
      i := i + 1;
    }
    assert db.appointments[..i] == db.appointments;
    if appointmentsList == [] {
      return Success(200, Listing(Some(MsgNoUserAppointments), []));
    }
    return Success(200, Listing(None, appointmentsList));
  }

  /** One entry of `get_barbers`. */
  datatype BarberSummary = BarberSummary(id: string, fullname: Json, email: Json, role: Json)

  function SummaryOf(u: User): BarberSummary
  {
    BarberSummary(IdString(u.id), u.fullname, u.email, JStr(u.role))
  }

  /** The summaries of the users whose role is barber, in stored order. */
  function BarberSummaries(users: seq<User>): seq<BarberSummary>
  {
    if users == [] then []
    else
      var n := |users| - 1;
      BarberSummaries(users[..n]) + (if users[n].role == "barber" then [SummaryOf(users[n])] else [])
  }

  /** The list holds the summary of every barber and of nobody else. */
  lemma {:induction false} BarberSummariesMembers(users: seq<User>)
    ensures |BarberSummaries(users)| <= |users|
    ensures forall i :: 0 <= i < |users| && users[i].role == "barber" ==> SummaryOf(users[i]) in BarberSummaries(users)
    ensures forall v :: v in BarberSummaries(users) ==>
              exists i :: 0 <= i < |users| && users[i].role == "barber" && v == SummaryOf(users[i])
  {
    if users != [] {
      var n := |users| - 1;
      var init := users[..n];
      assert forall i :: 0 <= i < n ==> init[i] == users[i];
      BarberSummariesMembers(init);
    }
  }

  /** `get_barbers`: only callers with the role 'user' get the list of
      barbers. */
  method GetBarbers(db: Db, identity: Identity) returns (reply: Reply<seq<BarberSummary>>)
    ensures BarbersAccess(identity).Some? ==>
              reply == Failure(BarbersAccess(identity).value.status, BarbersAccess(identity).value.msg)
    ensures BarbersAccess(identity).None? ==> reply == Success(200, BarberSummaries(db.users))
  {
    var denial := BarbersAccess(identity);
    if denial.Some? {
      return Failure(denial.value.status, denial.value.msg);
    }
    var barbersList: seq<BarberSummary> := [];
    var i := 0;
    while i < |db.users|
      invariant 0 <= i <= |db.users|
      invariant barbersList == BarberSummaries(db.users[..i])
    {
      var barber := db.users[i];
      assert db.users[..i + 1][..i] == db.users[..i];
      if barber.role == "barber" {
        barbersList := barbersList + [BarberSummary(IdString(barber.id), barber.fullname, barber.email,
                                                    JStr(barber.role))];
      }
      i := i + 1;
    }
    assert db.users[..i] == db.users;
    return Success(200, barbersList);
  }

  // ---------------------------------------------------------------- seeding

  datatype BarberSeed = BarberSeed(email: string, fullname: string)

  /** The ten barbers `register_barbers` creates. */
  const BarberSeeds: seq<BarberSeed> := [
    BarberSeed("john.doe@example.com", "John Doe"),
    BarberSeed("michael.smith@example.com", "Michael Smith"),
    BarberSeed("david.jones@example.com", "David Jones"),
    BarberSeed("robert.johnson@example.com", "Robert Johnson"),
    BarberSeed("william.brown@example.com", "William Brown"),
    BarberSeed("charles.davis@example.com", "Charles Davis"),
    BarberSeed("james.miller@example.com", "James Miller"),
    BarberSeed("daniel.moore@example.com", "Daniel Moore"),
    BarberSeed("matthew.wilson@example.com", "Matthew Wilson"),
    BarberSeed("anthony.taylor@example.com", "Anthony Taylor")
  ]

  /** The users collection and the next fresh id. */
  datatype Users = Users(users: seq<User>, nextId: ObjectId)

  /** Insert-if-email-absent of one seed, as a barber with the default
      password. */
  function SeedBarber(t: Users, seed: BarberSeed): Users
  {
    if HasEmail(t.users, JStr(seed.email)) then t
    else Users(t.users + [User(t.nextId, JStr(seed.email), GeneratePasswordHash(DefaultPassword),
                               JStr(seed.fullname), "barber")],
               t.nextId + 1)
  }

  /** The seeds applied in order. Every document added is a barber with the
      default password and a fresh id, and unique emails stay unique. */
  function SeedBarbers(t: Users, seeds: seq<BarberSeed>): (r: Users)
    ensures |t.users| <= |r.users| && r.users[..|t.users|] == t.users
    ensures r.nextId == t.nextId + (|r.users| - |t.users|)
    ensures forall i :: |t.users| <= i < |r.users| ==>
              && r.users[i].role == "barber" && r.users[i].password == GeneratePasswordHash(DefaultPassword)
              && r.users[i].id == t.nextId + (i - |t.users|)
    ensures UniqueEmails(t.users) ==> UniqueEmails(r.users)
  {
    if seeds == [] then t
    else
      var mid := SeedBarbers(t, seeds[..|seeds| - 1]);
      var r := SeedBarber(mid, seeds[|seeds| - 1]);
      assert r.users[..|mid.users|] == mid.users;
      assert r.users[..|t.users|] == mid.users[..|t.users|];
      if UniqueEmails(mid.users) && r != mid then
        AppendKeepsUniqueEmails(mid.users, r.users[|mid.users|]);
        r
      else r
  }

  lemma HasEmailAppend(users: seq<User>, more: seq<User>, email: Json)
    requires HasEmail(users, email)
    ensures HasEmail(users + more, email)
  {
    var i :| 0 <= i < |users| && users[i].email == email;
    assert (users + more)[i] == users[i];
  }

  /** After seeding, every seed's email is present. */
  lemma {:induction false} SeedBarbersPresent(t: Users, seeds: seq<BarberSeed>)
    ensures forall k :: 0 <= k < |seeds| ==> HasEmail(SeedBarbers(t, seeds).users, JStr(seeds[k].email))
  {
    if seeds != [] {
      var init := seeds[..|seeds| - 1];
      var mid := SeedBarbers(t, init);
      var r := SeedBarbers(t, seeds);
      SeedBarbersPresent(t, init);
      assert r == SeedBarber(mid, seeds[|seeds| - 1]);
      assert r.users == mid.users + r.users[|mid.users|..];
      forall k | 0 <= k < |seeds|
        ensures HasEmail(r.users, JStr(seeds[k].email))
      {
        if k < |seeds| - 1 {
          assert seeds[k] == init[k];
          HasEmailAppend(mid.users, r.users[|mid.users|..], JStr(seeds[k].email));
        } else if r == mid {
          assert HasEmail(mid.users, JStr(seeds[k].email));
        } else {
          assert r.users[|mid.users|].email == JStr(seeds[k].email);
        }
      }
    }
  }

  /** When every seed's email is already present, seeding changes nothing. */
  lemma {:induction false} SeedBarbersNoop(t: Users, seeds: seq<BarberSeed>)
    requires forall k :: 0 <= k < |seeds| ==> HasEmail(t.users, JStr(seeds[k].email))
    ensures SeedBarbers(t, seeds) == t
  {
    if seeds != [] {
      var init := seeds[..|seeds| - 1];
      assert forall k :: 0 <= k < |init| ==> init[k] == seeds[k];
      SeedBarbersNoop(t, init);
    }
  }

  /** `register_barbers` is idempotent: a second run adds nobody. */
  lemma SeedBarbersIdempotent(t: Users, seeds: seq<BarberSeed>)
    ensures SeedBarbers(SeedBarbers(t, seeds), seeds) == SeedBarbers(t, seeds)
  {
    SeedBarbersPresent(t, seeds);
    SeedBarbersNoop(SeedBarbers(t, seeds), seeds);
  }

  /** `register_barbers`. */
  method RegisterBarbers(db: Db) returns (reply: Reply<string>)
    requires db.Valid()
    modifies db
    ensures db.Valid()
    ensures Users(db.users, db.nextId) == SeedBarbers(Users(old(db.users), old(db.nextId)), BarberSeeds)
    ensures db.services == old(db.services) && db.appointments == old(db.appointments)
    ensures reply == Success(200, MsgBarbersRegistered)
  {
    ghost var start := Users(db.users, db.nextId);
    for i := 0 to |BarberSeeds|
      invariant db.Valid()
      invariant Users(db.users, db.nextId) == SeedBarbers(start, BarberSeeds[..i])
      invariant db.services == old(db.services) && db.appointments == old(db.appointments)
    {
      var barber := BarberSeeds[i];
      assert BarberSeeds[..i + 1][..i] == BarberSeeds[..i];
      assert SeedBarbers(start, BarberSeeds[..i + 1]) == SeedBarber(SeedBarbers(start, BarberSeeds[..i]), barber);
      ghost var before := Users(db.users, db.nextId);
      if FindUserByEmail(db.users, JStr(barber.email)).None? {
        var hashed := GeneratePasswordHash(DefaultPassword);
        var id := db.InsertUser(JStr(barber.email), hashed, JStr(barber.fullname), "barber");
      }
      assert Users(db.users, db.nextId) == SeedBarber(before, barber);
    }
    assert BarberSeeds[..|BarberSeeds|] == BarberSeeds;
    return Success(200, MsgBarbersRegistered);
  }
}
