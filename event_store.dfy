/** The event and user repositories as one value, and the state transition of
    each service operation as a function on it. The service class proves its
    methods against these functions; the lemmas here state what the
    operations promise across several calls. */
module EventStore {
  import opened Common
  import opened EventEntity

  /** The event table (rows keyed by id, each carrying its registered
      users), the user table (only the ids matter here) and the identity
      counter that hands out the next event id. */
  datatype Store = Store(events: map<EventId, EventData>, users: set<UserId>, nextId: EventId)

  /** Every row sits under its own id and passed validation when it was
      written, and the counter is past every stored id, so the ids it hands
      out are fresh. */
  predicate Valid(s: Store) {
    forall k :: k in s.events ==>
      s.events[k].id == Some(k) && k < s.nextId && Violations(s.events[k]) == {}
  }

  /** Whether `id` names a stored event. */
  predicate Stored(s: Store, id: Option<EventId>) {
    id.Some? && id.value in s.events
  }

  /** Repository `save`. The entity's constraints are checked before the
      insert or update, and a violation aborts the save with the store
      unchanged and the violated constraints' messages. Otherwise an entity
      whose id is stored overwrites that row, and any other entity is
      inserted under the next generated id. A successful save gives the new
      store and the key the entity now lives under. */
  function Save(s: Store, row: EventData): (r: Result<(Store, EventId), set<string>>)
    requires Valid(s)
    ensures r.Failure? <==> Violations(row) != {}
    ensures r.Failure? ==> r.error == Violations(row)
    ensures r.Success? ==>
      var (s', key) := r.value;
      && Valid(s')
      && key in s'.events && s'.events[key] == row.(id := Some(key))
      && s'.events.Keys == s.events.Keys + {key}
      && (forall k :: k in s.events && k != key ==> s'.events[k] == s.events[k])
      && (key in s.events <==> Stored(s, row.id))
      && (Stored(s, row.id) ==> key == row.id.value)
      && (!Stored(s, row.id) ==> forall k :: k in s.events ==> k < key)
      && s'.users == s.users && s'.nextId >= s.nextId
  {
    var violations := Violations(row);
    if violations != {} then
      Failure(violations)
    else if Stored(s, row.id) then
      Success((s.(events := s.events[row.id.value := row]), row.id.value))
    else
      var k := s.nextId;
      ValidationIgnoresIdAndUsers(row, Some(k), row.registeredUsers);
      Success((Store(s.events[k := row.(id := Some(k))], s.users, k + 1), k))
  }

  /** The five setters `updateEvent` applies to the loaded event. */
  function Overwrite(row: EventData, details: EventData): EventData {
    row.(name := details.name, description := details.description, date := details.date,
         location := details.location, time := details.time)
  }

  /** `updateEvent`: on a stored id, every descriptive field takes the value
      from `details` while the id and the registered users stay, unless the
      new values violate a constraint, in which case the save fails and
      nothing is written. On a missing id nothing is written and the result
      is absent. */
  function Update(s: Store, id: EventId, details: EventData)
    : (r: Result<(Store, Option<EventData>), set<string>>)
    requires Valid(s)
    ensures id !in s.events ==> r == Success((s, None))
    ensures id in s.events ==> (r.Failure? <==> Violations(details) != {})
    ensures r.Failure? ==> r.error == Violations(details)
    ensures id in s.events && r.Success? ==>
      var (s', updated) := r.value;
      && Valid(s')
      && updated.Some?
      && var u := updated.value;
      && u.id == Some(id)
      && u.registeredUsers == s.events[id].registeredUsers
      && u.name == details.name && u.description == details.description
      && u.date == details.date && u.location == details.location && u.time == details.time
      && s' == s.(events := s.events[id := u])
  {
    if id in s.events then
      var row := Overwrite(s.events[id], details);
      ValidationIgnoresIdAndUsers(details, row.id, row.registeredUsers);
      match Save(s, row)
      case Success(saved) => Success((saved.0, Some(saved.0.events[saved.1])))
      case Failure(violations) => Failure(violations)
    else
      Success((s, None))
  }

  /** `deleteEvent`: succeeds exactly when the id is stored; afterwards the
      id is absent and every other row is as it was. */
  function Delete(s: Store, id: EventId): (r: (Store, bool))
    requires Valid(s)
    ensures Valid(r.0)
    ensures r.1 <==> id in s.events
    ensures r.0.events.Keys == s.events.Keys - {id}
    ensures forall k :: k in r.0.events ==> r.0.events[k] == s.events[k]
    ensures r.0.users == s.users && r.0.nextId == s.nextId
  {
    if id in s.events then (s.(events := s.events - {id}), true) else (s, false)
  }

  /** Why `registerEvent` failed. A null user id reaches the user
      repository's `findById`, which rejects it before any lookup. */
  datatype RegisterError = EventNotFound | NullUserId | UserNotFound

  function Message(e: RegisterError): (m: string)
    ensures e == EventNotFound <==> m == "Event not found"
    ensures e == UserNotFound <==> m == "User not found"
  {
    match e
    case EventNotFound => "Event not found"
    case UserNotFound => "User not found"
    case NullUserId => "The given id must not be null"
  }

  /** `registerEvent`: the event is looked up first, then the user; on
      success the user id joins the event's registered users and nothing
      else changes. The stored event already passed validation and the
      registered users carry no constraint, so its save cannot fail. */
  function Register(s: Store, eventId: EventId, userId: Option<UserId>): (r: Result<Store, RegisterError>)
    requires Valid(s)
    ensures r == Failure(EventNotFound) <==> eventId !in s.events
    ensures r == Failure(NullUserId) <==> eventId in s.events && userId.None?
    ensures r == Failure(UserNotFound) <==> eventId in s.events && userId.Some? && userId.value !in s.users
    ensures r.Success? ==>
      && Valid(r.value)
      && eventId in s.events && userId.Some?
      && var before := s.events[eventId];
      && r.value == s.(events := s.events[eventId := before.(registeredUsers := before.registeredUsers + {userId.value})])
  {
    if eventId !in s.events then Failure(EventNotFound)
    else if userId.None? then Failure(NullUserId)
    else if userId.value !in s.users then Failure(UserNotFound)
    else
      var event := s.events[eventId];
      var row := event.(registeredUsers := event.registeredUsers + {userId.value});
      ValidationIgnoresIdAndUsers(event, row.id, row.registeredUsers);
      var saved := Save(s, row);
      assert saved.Success?;
      Success(saved.value.0)
  }

  // ---------------------------------------------------------------------
  // Properties across several calls
  // ---------------------------------------------------------------------

  /** An event created from a valid draft without an id is stored under an
      id no stored event had, carries that id, has the draft's fields, and
      every event stored before is unchanged. */
  lemma CreateStoresFresh(s: Store, draft: EventData)
    requires Valid(s) && draft.id.None? && Violations(draft) == {}
    ensures Save(s, draft).Success?
    ensures var (s', k) := Save(s, draft).value;
      && k !in s.events
      && s'.events[k] == draft.(id := Some(k))
      && (forall j :: j in s.events ==> j in s'.events && s'.events[j] == s.events[j])
  {
  }

  /** A draft that violates a constraint is never stored: the save reports
      exactly its violations. */
  lemma InvalidDraftRejected(s: Store, draft: EventData)
    requires Valid(s) && Violations(draft) != {}
    ensures Save(s, draft) == Failure(Violations(draft))
  {
  }

  /** Deleting twice: the second call reports failure and writes nothing. */
  lemma DeleteTwice(s: Store, id: EventId)
    requires Valid(s)
    ensures var once := Delete(s, id).0;
      Delete(once, id) == (once, false)
  {
  }

  /** Updating twice with the same details gives the state of one update. */
  lemma UpdateIdempotent(s: Store, id: EventId, details: EventData)
    requires Valid(s) && Update(s, id, details).Success?
    ensures var (once, r) := Update(s, id, details).value;
      Update(once, id, details) == Success((once, r))
  {
    var (once, r) := Update(s, id, details).value;
    if id in s.events {
      var (twice, r2) := Update(once, id, details).value;
      assert r2 == r;
      assert twice.events == once.events;
    }
  }

  /** Updating stores an event only when the new values pass validation,
      and the stored event then passes it too; a failed update reports the
      violations of the new values. */
  lemma UpdatedEventValidation(s: Store, id: EventId, details: EventData)
    requires Valid(s) && id in s.events
    ensures match Update(s, id, details)
      case Success((s', u)) => Violations(details) == {} && Violations(u.value) == {}
      case Failure(violations) => violations == Violations(details) && violations != {}
  {
  }

  /** Registering the same user for the same event twice gives the same
      state as registering once. */
  lemma RegisterIdempotent(s: Store, eventId: EventId, userId: Option<UserId>)
    requires Valid(s) && Register(s, eventId, userId).Success?
    ensures var once := Register(s, eventId, userId).value;
      Register(once, eventId, userId) == Success(once)
  {
    var once := Register(s, eventId, userId).value;
    var u := userId.value;
    var twice := Register(once, eventId, userId).value;
    assert once.events[eventId].registeredUsers + {u} == once.events[eventId].registeredUsers;
    assert twice.events == once.events;
  }

  /** A user already registered is absorbed by set semantics: the store is
      unchanged, so no user appears twice. */
  lemma RegisterAlreadyRegistered(s: Store, eventId: EventId, u: UserId)
    requires Valid(s) && eventId in s.events && u in s.users
    requires u in s.events[eventId].registeredUsers
    ensures Register(s, eventId, Some(u)) == Success(s)
  {
    var before := s.events[eventId];
    assert before.(registeredUsers := before.registeredUsers + {u}) == before;
    assert s.events[eventId := before] == s.events;
  }

  /** The order of two registrations for one event does not matter. */
  lemma RegisterCommutes(s: Store, eventId: EventId, u: UserId, w: UserId)
    requires Valid(s) && eventId in s.events && u in s.users && w in s.users
    ensures var uw := Register(Register(s, eventId, Some(u)).value, eventId, Some(w));
            var wu := Register(Register(s, eventId, Some(w)).value, eventId, Some(u));
      uw == wu && uw.Success?
      && uw.value.events[eventId].registeredUsers == s.events[eventId].registeredUsers + {u, w}
  {
    var su := Register(s, eventId, Some(u)).value;
    var sw := Register(s, eventId, Some(w)).value;
    var uw := Register(su, eventId, Some(w)).value;
    var wu := Register(sw, eventId, Some(u)).value;
    var before := s.events[eventId].registeredUsers;
    assert before + {u} + {w} == before + {w} + {u} == before + {u, w};
    assert uw.events == wu.events;
  }

  /** The missing event is reported even when the user is missing too: the
      event lookup comes first. */
  lemma EventCheckedFirst(s: Store, eventId: EventId, userId: Option<UserId>)
    requires Valid(s) && eventId !in s.events
    ensures Register(s, eventId, userId) == Failure(EventNotFound)
    ensures Message(Register(s, eventId, userId).error) == "Event not found"
  {
  }

  // ---------------------------------------------------------------------
  // Any sequence of service writes
  // ---------------------------------------------------------------------

  /** One call of a service operation that may write. */
  datatype Call =
    | CreateCall(draft: EventData)
    | UpdateCall(id: EventId, details: EventData)
    | DeleteCall(id: EventId)
    | RegisterCall(eventId: EventId, userId: Option<UserId>)

  /** The store after one call; a call that fails leaves it as it was. */
  function Step(s: Store, call: Call): (s': Store)
    requires Valid(s)
    ensures Valid(s')
  {
    match call
    case CreateCall(draft) =>
      (match Save(s, draft) case Success(saved) => saved.0 case Failure(_) => s)
    case UpdateCall(id, details) =>
      (match Update(s, id, details) case Success(updated) => updated.0 case Failure(_) => s)
    case DeleteCall(id) => Delete(s, id).0
    case RegisterCall(eventId, userId) =>
      (match Register(s, eventId, userId) case Success(s') => s' case Failure(_) => s)
  }

  /** The store after a sequence of calls, in order. */
  function Run(s: Store, calls: seq<Call>): (s': Store)
    requires Valid(s)
    ensures Valid(s')
    decreases |calls|
  {
    if calls == [] then s else Run(Step(s, calls[0]), calls[1..])
  }

  /** An id that was handed out once and is no longer stored. */
  predicate Retired(s: Store, id: EventId) {
    id < s.nextId && id !in s.events
  }

  /** No single call brings a retired id back. */
  lemma StepKeepsRetired(s: Store, call: Call, id: EventId)
    requires Valid(s) && Retired(s, id)
    ensures Retired(Step(s, call), id)
  {
  }

  /** Ids are never handed out twice: once an event is deleted, no sequence
      of later calls stores anything under its id again, so every later
      delete of that id returns false. */
  lemma {:induction false} DeletedIdStaysFree(s: Store, id: EventId, calls: seq<Call>)
    requires Valid(s) && id in s.events
    ensures var after := Run(Delete(s, id).0, calls);
      id !in after.events && Delete(after, id) == (after, false)
  {
    RetiredStaysRetired(Delete(s, id).0, id, calls);
  }

  /** A retired id stays retired across any sequence of calls. */
  lemma {:induction false} RetiredStaysRetired(s: Store, id: EventId, calls: seq<Call>)
    requires Valid(s) && Retired(s, id)
    ensures Retired(Run(s, calls), id)
    decreases |calls|
  {
    if calls != [] {
      StepKeepsRetired(s, calls[0], id);
      RetiredStaysRetired(Step(s, calls[0]), id, calls[1..]);
    }
  }
}
