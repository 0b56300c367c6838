/** The three MongoDB collections the handlers share (users, services and
    appointments), their documents, the `find_one` lookups the handlers
    make, and the password hash. */
module Store {

  import opened Wrappers
  import opened Json
  import opened DateTimes
  import opened ObjectIds

  /** A password hash. The salt and the digest are not modelled: a hash is
      the secret it was made from, kept apart from plain strings. */
  datatype PasswordHash = Hashed(secret: string)

  /** `check_password_hash(h, password)`. */
  predicate CheckPasswordHash(h: PasswordHash, password: string)
  {
    h.secret == password
  }

  /** `generate_password_hash(password)`: the hash accepts that password and
      no other. */
  function GeneratePasswordHash(password: string): (h: PasswordHash)
    ensures forall p :: CheckPasswordHash(h, p) <==> p == password
  {
    Hashed(password)
  }

  /** A document of the users collection. `role` is "user" or "barber" for
      every document the handlers insert. */
  datatype User = User(id: ObjectId, email: Json, password: PasswordHash, fullname: Json, role: string)

  /** A document of the services collection; `points` is None when the
      document has no such field. */
  datatype Service = Service(id: ObjectId, name: Json, duration: Json, value: Json, points: Option<Json>)

  /** A document of the appointments collection. */
  datatype Appointment = Appointment(id: ObjectId, userId: ObjectId, barberId: ObjectId,
                                     serviceId: ObjectId, date: DateTime, status: string)

  /** The position of the first element satisfying `p`, in insertion order,
      the order `find_one` scans a collection in. */
  function FirstIndex<T>(s: seq<T>, p: T -> bool): (r: Option<nat>)
    ensures r.Some? ==> r.value < |s| && p(s[r.value]) && forall j :: 0 <= j < r.value ==> !p(s[j])
    ensures r.None? ==> forall j :: 0 <= j < |s| ==> !p(s[j])
  {
    if s == [] then None
    else if p(s[0]) then Some(0)
    else
      match FirstIndex(s[1..], p)
      case None => None
      case Some(k) => Some(k + 1)
  }

  /** The elements of `s` satisfying `p`, in order: the documents a
      `find(query)` cursor yields. */
  function Filter<T>(s: seq<T>, p: T -> bool): (r: seq<T>)
    ensures |r| <= |s|
    ensures forall x :: x in r ==> x in s && p(x)
    ensures forall i :: 0 <= i < |s| && p(s[i]) ==> s[i] in r
  {
    if s == [] then []
    else
      var n := |s| - 1;
      var r0 := Filter(s[..n], p);
      assert forall i :: 0 <= i < n ==> s[..n][i] == s[i];
      r0 + (if p(s[n]) then [s[n]] else [])
  }

  /** The cursor keeps collection order: a document added at the end comes
      out last, if it matches, and the earlier ones are unaffected. */
  lemma FilterSnoc<T>(s: seq<T>, x: T, p: T -> bool)
    ensures Filter(s + [x], p) == Filter(s, p) + (if p(x) then [x] else [])
  {
    assert (s + [x])[..|s|] == s;
  }

  predicate HasEmail(users: seq<User>, email: Json)
  {
    exists i :: 0 <= i < |users| && users[i].email == email
  }

  /** `users_collection.find_one({"email": email})`. */
  function FindUserByEmail(users: seq<User>, email: Json): (r: Option<User>)
    ensures r.None? <==> !HasEmail(users, email)
    ensures r.Some? ==> exists i :: 0 <= i < |users| && users[i] == r.value && r.value.email == email
                                    && forall j :: 0 <= j < i ==> users[j].email != email
  {
    match FirstIndex(users, (u: User) => u.email == email)
    case None => None
    case Some(i) => Some(users[i])
  }

  /** `users_collection.find_one({"_id": id})`. */
  function FindUserById(users: seq<User>, id: ObjectId): (r: Option<User>)
    ensures r.None? <==> forall i :: 0 <= i < |users| ==> users[i].id != id
    ensures r.Some? ==> r.value in users && r.value.id == id
  {
    match FirstIndex(users, (u: User) => u.id == id)
    case None => None
    case Some(i) => Some(users[i])
  }

  /** `users_collection.find_one({"_id": id, "role": "barber"})`. */
  function FindBarber(users: seq<User>, id: ObjectId): (r: Option<User>)
    ensures r.None? <==> forall i :: 0 <= i < |users| ==> users[i].id != id || users[i].role != "barber"
    ensures r.Some? ==> r.value in users && r.value.id == id && r.value.role == "barber"
  {
    match FirstIndex(users, (u: User) => u.id == id && u.role == "barber")
    case None => None
    case Some(i) => Some(users[i])
  }

  /** `services_collection.find_one({"_id": id})`. */
  function FindServiceById(services: seq<Service>, id: ObjectId): (r: Option<Service>)
    ensures r.None? <==> forall i :: 0 <= i < |services| ==> services[i].id != id
    ensures r.Some? ==> r.value in services && r.value.id == id
  {
    match FirstIndex(services, (s: Service) => s.id == id)
    case None => None
    case Some(i) => Some(services[i])
  }

  predicate HasServiceNamed(services: seq<Service>, name: Json)
  {
    exists i :: 0 <= i < |services| && services[i].name == name
  }

  predicate NoServiceWithId(services: seq<Service>, id: ObjectId)
  {
    forall i :: 0 <= i < |services| ==> services[i].id != id
  }

  /** `after` is `before` without its element at some index holding `id`. */
  predicate RemovedService(before: seq<Service>, after: seq<Service>, id: ObjectId)
  {
    exists i :: 0 <= i < |before| && before[i].id == id && after == before[..i] + before[i + 1..]
  }

  /** No two users share an email: the invariant `register` and
      `register_barbers` keep by inserting only absent emails. */
  predicate UniqueEmails(users: seq<User>)
  {
    forall i, j :: 0 <= i < j < |users| ==> users[i].email != users[j].email
  }

  /** Appending a user whose email is absent keeps emails unique. */
  lemma AppendKeepsUniqueEmails(users: seq<User>, u: User)
    requires UniqueEmails(users) && !HasEmail(users, u.email)
    ensures UniqueEmails(users + [u])
  {
    var t := users + [u];
    forall i, j | 0 <= i < j < |t|
      ensures t[i].email != t[j].email
    {
      if j == |users| {
        assert t[i] == users[i];
      } else {
        assert t[i] == users[i] && t[j] == users[j];
      }
    }
  }

  predicate UserIdsBelow(users: seq<User>, bound: nat)
  {
    && (forall i :: 0 <= i < |users| ==> users[i].id < bound)
    && (forall i, j :: 0 <= i < j < |users| ==> users[i].id != users[j].id)
  }

  predicate ServiceIdsBelow(services: seq<Service>, bound: nat)
  {
    && (forall i :: 0 <= i < |services| ==> services[i].id < bound)
    && (forall i, j :: 0 <= i < j < |services| ==> services[i].id != services[j].id)
  }

  predicate AppointmentIdsBelow(appointments: seq<Appointment>, bound: nat)
  {
    && (forall i :: 0 <= i < |appointments| ==> appointments[i].id < bound)
    && (forall i, j :: 0 <= i < j < |appointments| ==> appointments[i].id != appointments[j].id)
  }

  /** Every stored date is one Python's `datetime` can hold. */
  predicate DatesValid(appointments: seq<Appointment>)
  {
    forall i :: 0 <= i < |appointments| ==> ValidPyDateTime(appointments[i].date)
  }

  /** The database: the three collections and the source of fresh ids. */
  class Db {
    var users: seq<User>
    var services: seq<Service>
    var appointments: seq<Appointment>
    /** Every id handed out so far is below `nextId`. */
    var nextId: ObjectId

    ghost predicate Valid()
      reads this
    {
      && UserIdsBelow(users, nextId)
      && ServiceIdsBelow(services, nextId)
      && AppointmentIdsBelow(appointments, nextId)
      && DatesValid(appointments)
    }

    constructor ()
      ensures Valid()
      ensures users == [] && services == [] && appointments == []
    {
      users := [];
      services := [];
      appointments := [];
      nextId := 0;
    }

    /** `users_collection.insert_one(...)`: the new document gets a fresh id. */
    method InsertUser(email: Json, password: PasswordHash, fullname: Json, role: string)
      returns (id: ObjectId)
      requires Valid()
      modifies this
      ensures Valid()
      ensures id == old(nextId) && nextId == old(nextId) + 1
      ensures users == old(users) + [User(id, email, password, fullname, role)]
      ensures services == old(services) && appointments == old(appointments)
    {
      id := nextId;
      users := users + [User(id, email, password, fullname, role)];
      nextId := nextId + 1;
    }

    /** `services_collection.insert_one(...)`. */
    method InsertService(name: Json, duration: Json, value: Json, points: Option<Json>)
      returns (id: ObjectId)
      requires Valid()
      modifies this
      ensures Valid()
      ensures id == old(nextId) && nextId == old(nextId) + 1
      ensures services == old(services) + [Service(id, name, duration, value, points)]
      ensures users == old(users) && appointments == old(appointments)
    {
      id := nextId;
      services := services + [Service(id, name, duration, value, points)];
      nextId := nextId + 1;
    }

    /** `appointments_collection.insert_one(...)`. */
    method InsertAppointment(userId: ObjectId, barberId: ObjectId, serviceId: ObjectId,
                             date: DateTime, status: string)
      returns (id: ObjectId)
      requires Valid() && ValidPyDateTime(date)
      modifies this
      ensures Valid()
      ensures id == old(nextId) && nextId == old(nextId) + 1
      ensures appointments == old(appointments) + [Appointment(id, userId, barberId, serviceId, date, status)]
      ensures users == old(users) && services == old(services)
    {
      id := nextId;
      appointments := appointments + [Appointment(id, userId, barberId, serviceId, date, status)];
      nextId := nextId + 1;
    }

    /** `services_collection.delete_one({"_id": id})`: removes the first
        document with that id and reports how many were removed. */
    method DeleteService(id: ObjectId) returns (deletedCount: nat)
      requires Valid()
      modifies this
      ensures Valid()
      ensures deletedCount == 0 <==> NoServiceWithId(old(services), id)
      ensures deletedCount == 0 ==> services == old(services)
      ensures deletedCount != 0 ==> deletedCount == 1 && RemovedService(old(services), services, id)
      ensures NoServiceWithId(services, id)
      ensures users == old(users) && appointments == old(appointments) && nextId == old(nextId)
    {
      var i := 0;
      while i < |services| && services[i].id != id
        invariant 0 <= i <= |services|
        invariant forall j :: 0 <= j < i ==> services[j].id != id
      {
        i := i + 1;
      }
      if i == |services| {
        return 0;
      }
      ghost var before := services;
      services := services[..i] + services[i + 1..];
      assert forall j :: 0 <= j < |services| ==> services[j] == (if j < i then before[j] else before[j + 1]);
      assert RemovedService(before, services, id);
      return 1;
    }
  }
}
