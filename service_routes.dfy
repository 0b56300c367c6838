/** The `/service` routes: registering a service, deleting one, listing at
    most ten, and seeding the ten default services. */
module ServiceRoutes {

  import opened Wrappers
  import opened Digits
  import opened Json
  import opened ObjectIds
  import opened Store

  const MsgServiceRequired: string := "Name, duration, value, and points are required"
  const MsgBadDuration: string := "Duration must be either 30 or 60 minutes"
  const MsgServiceRegistered: string := "Service registered successfully!"
  const MsgServiceNotFound: string := "Service not found"
  const MsgServiceDeleted: string := "Service deleted successfully!"
  const MsgServicesRegistered: string := "10 Services registered successfully!"

  /** `find().limit(10)`: the listing returns at most this many services. */
  const ListLimit: nat := 10

  /** `duration in [30, 60]`. */
  predicate IsDuration(j: Json)
  {
    j == JInt(30) || j == JInt(60)
  }

  /** Every stored service lasts 30 or 60 minutes: what `register_service`
      checks and what every seed satisfies. */
  predicate DurationsValid(services: seq<Service>)
  {
    forall i :: 0 <= i < |services| ==> IsDuration(services[i].duration)
  }

  // -------------------------------------------------------- register_service

  /** Only name, duration and value are checked; `points` is optional. */
  predicate ServiceFieldsPresent(body: Body)
  {
    !Falsy(Get(body, "name")) && !Falsy(Get(body, "duration")) && !Falsy(Get(body, "value"))
  }

  /** `data.get('points', 0)`. */
  function PointsOf(body: Body): Json
  {
    GetOr(body, "points", JInt(0))
  }

  /** The reply of `register_service`: a falsy name, duration or value
      (0 included) first, then a duration other than 30 or 60. */
  function RegisterServiceReply(body: Body): (r: Reply<string>)
    ensures r == Failure(400, MsgServiceRequired) <==> !ServiceFieldsPresent(body)
    ensures r == Failure(400, MsgBadDuration)
        <==> ServiceFieldsPresent(body) && !IsDuration(Get(body, "duration"))
    ensures r.Success? <==> ServiceFieldsPresent(body) && IsDuration(Get(body, "duration"))
    ensures r.Success? ==> r == Success(201, MsgServiceRegistered)
  {
    if !ServiceFieldsPresent(body) then Failure(400, MsgServiceRequired)
    else if !IsDuration(Get(body, "duration")) then Failure(400, MsgBadDuration)
    else Success(201, MsgServiceRegistered)
  }

  /** `register_service`: on success one service is appended, with points 0
      when the body has none; on an error nothing changes. Durations stay
      30 or 60. */
  method RegisterService(db: Db, body: Body) returns (reply: Reply<string>)
    requires db.Valid()
    modifies db
    ensures db.Valid()
    ensures reply == RegisterServiceReply(body)
    ensures reply.Success? ==>
              db.services == old(db.services) + [Service(old(db.nextId), Get(body, "name"),
                                                         Get(body, "duration"), Get(body, "value"),
                                                         Some(PointsOf(body)))]
    ensures reply.Failure? ==> db.services == old(db.services) && db.nextId == old(db.nextId)
    ensures db.users == old(db.users) && db.appointments == old(db.appointments)
    ensures DurationsValid(old(db.services)) ==> DurationsValid(db.services)
  {
    var name := Get(body, "name");
    var duration := Get(body, "duration");
    var value := Get(body, "value");
    var points := PointsOf(body);

    if Falsy(name) || Falsy(duration) || Falsy(value) {
      return Failure(400, MsgServiceRequired);
    }
    if !IsDuration(duration) {
      return Failure(400, MsgBadDuration);
    }
    var id := db.InsertService(name, duration, value, Some(points));
    assert db.services[|db.services| - 1].duration == duration;
    return Success(201, MsgServiceRegistered);
  }

  // ---------------------------------------------------------- delete_service

  /** `delete_service`: a malformed id makes `ObjectId(...)` raise; an id no
      service has gives 404 and changes nothing; otherwise exactly that
      service is removed. */
  method DeleteService(db: Db, serviceId: string) returns (reply: Reply<string>)
    requires db.Valid()
    modifies db
    ensures db.Valid()
    ensures ParseId(serviceId).None? ==> reply == Failure(500, InternalError) && db.services == old(db.services)
    ensures ParseId(serviceId).Some? && NoServiceWithId(old(db.services), ParseId(serviceId).value) ==>
              reply == Failure(404, MsgServiceNotFound) && db.services == old(db.services)
    ensures ParseId(serviceId).Some? && !NoServiceWithId(old(db.services), ParseId(serviceId).value) ==>
              && reply == Success(200, MsgServiceDeleted)
              && RemovedService(old(db.services), db.services, ParseId(serviceId).value)
              && NoServiceWithId(db.services, ParseId(serviceId).value)
    ensures db.users == old(db.users) && db.appointments == old(db.appointments)
    ensures DurationsValid(old(db.services)) ==> DurationsValid(db.services)
  {
    var parsed := ParseId(serviceId);
    if parsed.None? {
      return Failure(500, InternalError);
    }
    ghost var before := db.services;
    var deletedCount := db.DeleteService(parsed.value);
    if deletedCount == 0 {
      return Failure(404, MsgServiceNotFound);
    }
    RemovedKeepsDurations(before, db.services, parsed.value);
    return Success(200, MsgServiceDeleted);
  }

  /** Removing a service keeps every remaining duration valid. */
  lemma RemovedKeepsDurations(before: seq<Service>, after: seq<Service>, id: ObjectId)
    requires RemovedService(before, after, id)
    ensures DurationsValid(before) ==> DurationsValid(after)
  {
    var i :| 0 <= i < |before| && before[i].id == id && after == before[..i] + before[i + 1..];
    assert forall j :: 0 <= j < |after| ==> after[j] == (if j < i then before[j] else before[j + 1]);
  }

  // ------------------------------------------------------------ get_services

  /** One entry of `get_services`. */
  datatype ServiceView = ServiceView(id: string, name: Json, duration: Json, value: Json, points: Json)

  /** The entry of a stored service; a document without points shows 0. */
  function ServiceViewOf(s: Service): (v: ServiceView)
    ensures v.points == (if s.points.Some? then s.points.value else JInt(0))
    ensures v.name == s.name && v.duration == s.duration && v.value == s.value
    ensures s.id < Pow16(IdDigits) ==> ParseId(v.id) == Some(s.id)
  {
    var v := ServiceView(IdString(s.id), s.name, s.duration, s.value,
                         if s.points.Some? then s.points.value else JInt(0));
    if s.id < Pow16(IdDigits) then
      IdStringRoundTrip(s.id);
      v
    else v
  }

  function Min(a: nat, b: nat): nat
  {
    if a <= b then a else b
  }

  /** `get_services`: the first ten services in stored order, or all of
      them when there are fewer. */
  method GetServices(db: Db) returns (reply: Reply<seq<ServiceView>>)
    ensures reply.Success? && reply.status == 200
    ensures |reply.value| == Min(ListLimit, |db.services|)
    ensures forall k :: 0 <= k < |reply.value| ==> reply.value[k] == ServiceViewOf(db.services[k])
  {
    var services := db.services[..Min(ListLimit, |db.services|)];
    var servicesList: seq<ServiceView> := [];
    for i := 0 to |services|
      invariant |servicesList| == i
      invariant forall k :: 0 <= k < i ==> servicesList[k] == ServiceViewOf(services[k])
    {
      var service := services[i];
      servicesList := servicesList + [ServiceViewOf(service)];
    }
    return Success(200, servicesList);
  }

  // ------------------------------------------------------- register_services

  datatype ServiceSeed = ServiceSeed(name: string, duration: int, value: int, points: int)

  /** The ten services `register_services` creates. */
  const ServiceSeeds: seq<ServiceSeed> := [
    ServiceSeed("Corte de Cabelo Masculino", 30, 30, 10),
    ServiceSeed("Corte de Cabelo Feminino", 60, 50, 15),
    ServiceSeed("Barba", 30, 20, 5),
    ServiceSeed("Corte e Barba", 60, 40, 12),
    ServiceSeed("Design de Sobrancelha", 30, 25, 8),
    ServiceSeed("Corte de Cabelo Infantil", 30, 35, 10),
    ServiceSeed("Escova e Penteado", 60, 70, 20),
    ServiceSeed("Tratamento Capilar", 60, 80, 25),
    ServiceSeed("Manicure e Pedicure", 60, 45, 15),
    ServiceSeed("Depilação", 30, 20, 5)
  ]

  /** Every seed lasts 30 or 60 minutes. */
  predicate SeedDurationsValid(seeds: seq<ServiceSeed>)
  {
    forall k :: 0 <= k < |seeds| ==> seeds[k].duration == 30 || seeds[k].duration == 60
  }

  /** The services collection and the next fresh id. */
  datatype Services = Services(services: seq<Service>, nextId: ObjectId)

  function ServiceOfSeed(id: ObjectId, seed: ServiceSeed): Service
  {
    Service(id, JStr(seed.name), JInt(seed.duration), JInt(seed.value), Some(JInt(seed.points)))
  }

  /** Insert-if-name-absent of one seed. */
  function SeedService(t: Services, seed: ServiceSeed): Services
  {
    if HasServiceNamed(t.services, JStr(seed.name)) then t
    else Services(t.services + [ServiceOfSeed(t.nextId, seed)], t.nextId + 1)
  }

  /** The seeds applied in order: services are only added, each with a
      fresh id, and seeds of valid durations keep every duration valid. */
  function SeedServices(t: Services, seeds: seq<ServiceSeed>): (r: Services)
    ensures |t.services| <= |r.services| && r.services[..|t.services|] == t.services
    ensures r.nextId == t.nextId + (|r.services| - |t.services|)
    ensures forall i :: |t.services| <= i < |r.services| ==> r.services[i].id == t.nextId + (i - |t.services|)
    ensures SeedDurationsValid(seeds) && DurationsValid(t.services) ==> DurationsValid(r.services)
  {
    if seeds == [] then t
    else
      var init := seeds[..|seeds| - 1];
      assert forall k :: 0 <= k < |init| ==> init[k] == seeds[k];
      var mid := SeedServices(t, init);
      var r := SeedService(mid, seeds[|seeds| - 1]);
      assert r.services[..|mid.services|] == mid.services;
      assert r.services[..|t.services|] == mid.services[..|t.services|];
      r
  }

  lemma HasServiceNamedAppend(services: seq<Service>, more: seq<Service>, name: Json)
    requires HasServiceNamed(services, name)
    ensures HasServiceNamed(services + more, name)
  {
    var i :| 0 <= i < |services| && services[i].name == name;
    assert (services + more)[i] == services[i];
  }

  /** After seeding, a service of every seed's name is present. */
  lemma {:induction false} SeedServicesPresent(t: Services, seeds: seq<ServiceSeed>)
    ensures forall k :: 0 <= k < |seeds| ==> HasServiceNamed(SeedServices(t, seeds).services, JStr(seeds[k].name))
  {
    if seeds != [] {
      var init := seeds[..|seeds| - 1];
      var mid := SeedServices(t, init);
      var r := SeedServices(t, seeds);
      SeedServicesPresent(t, init);
      assert r == SeedService(mid, seeds[|seeds| - 1]);
      assert r.services == mid.services + r.services[|mid.services|..];
      forall k | 0 <= k < |seeds|
        ensures HasServiceNamed(r.services, JStr(seeds[k].name))
      {
        if k < |seeds| - 1 {
          assert seeds[k] == init[k];
          HasServiceNamedAppend(mid.services, r.services[|mid.services|..], JStr(seeds[k].name));
        } else if r == mid {
          assert HasServiceNamed(mid.services, JStr(seeds[k].name));
        } else {
          assert r.services[|mid.services|].name == JStr(seeds[k].name);
        }
      }
    }
  }

  /** When a service of every seed's name is present, seeding changes
      nothing. */
  lemma {:induction false} SeedServicesNoop(t: Services, seeds: seq<ServiceSeed>)
    requires forall k :: 0 <= k < |seeds| ==> HasServiceNamed(t.services, JStr(seeds[k].name))
    ensures SeedServices(t, seeds) == t
  {
    if seeds != [] {
      var init := seeds[..|seeds| - 1];
      assert forall k :: 0 <= k < |init| ==> init[k] == seeds[k];
      SeedServicesNoop(t, init);
    }
  }

  /** `register_services` is idempotent by name: a second run adds nothing. */
  lemma SeedServicesIdempotent(t: Services, seeds: seq<ServiceSeed>)
    ensures SeedServices(SeedServices(t, seeds), seeds) == SeedServices(t, seeds)
  {
    SeedServicesPresent(t, seeds);
    SeedServicesNoop(SeedServices(t, seeds), seeds);
  }

  /** `register_services`. */
  method RegisterServices(db: Db) returns (reply: Reply<string>)
    requires db.Valid()
    modifies db
    ensures db.Valid()
    ensures Services(db.services, db.nextId) == SeedServices(Services(old(db.services), old(db.nextId)), ServiceSeeds)
    ensures db.users == old(db.users) && db.appointments == old(db.appointments)
    ensures DurationsValid(old(db.services)) ==> DurationsValid(db.services)
    ensures reply == Success(200, MsgServicesRegistered)
  {
    ghost var start := Services(db.services, db.nextId);
    for i := 0 to |ServiceSeeds|
      invariant db.Valid()
      invariant Services(db.services, db.nextId) == SeedServices(start, ServiceSeeds[..i])
      invariant db.users == old(db.users) && db.appointments == old(db.appointments)
    {
      var service := ServiceSeeds[i];
      assert ServiceSeeds[..i + 1][..i] == ServiceSeeds[..i];
      if !HasServiceNamed(db.services, JStr(service.name)) {
        var id := db.InsertService(JStr(service.name), JInt(service.duration), JInt(service.value),
                                   Some(JInt(service.points)));
      }
    }
    assert ServiceSeeds[..|ServiceSeeds|] == ServiceSeeds;
    assert SeedDurationsValid(ServiceSeeds);
    return Success(200, MsgServicesRegistered);
  }
}
