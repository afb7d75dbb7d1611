/** The event service: its two repositories are fields it updates in place,
    and each public operation is a method proved against the matching
    transition of `EventStore`. */
module Service {
  import opened Common
  import opened EventEntity
  import opened Registration
  import EventStore

  class EventService {
    /** Event repository: rows by id, and the identity counter behind it. */
    var events: map<EventId, EventData>
    var nextId: EventId
    /** User repository: only which ids exist is read here. */
    var users: set<UserId>
    /** The PDF renderer; `None` stands for a rendering that threw or
        returned null. */
    const render: EventData -> Option<seq<byte>>

    /** The repositories' contents as one value. */
    function Model(): EventStore.Store
      reads this
    {
      EventStore.Store(events, users, nextId)
    }

    ghost predicate Valid()
      reads this
    {
      EventStore.Valid(Model())
    }

    /** The collaborators are handed in, not looked up. */
    constructor (store: EventStore.Store, render: EventData -> Option<seq<byte>>)
      requires EventStore.Valid(store)
      ensures Valid() && Model() == store && this.render == render
    {
      events, users, nextId := store.events, store.users, store.nextId;
      this.render := render;
    }

    /** Repository `save`: the entity's constraints are checked first, and a
        violation aborts the save with the repository untouched. */
    method SaveRow(row: EventData) returns (saved: Result<EventId, set<string>>)
      requires Valid()
      modifies this
      ensures Valid()
      ensures match EventStore.Save(old(Model()), row)
        case Success((s, key)) => Model() == s && saved == Success(key)
        case Failure(violations) => Model() == old(Model()) && saved == Failure(violations)
    {
      var violations := EventEntity.Violations(row);
      if violations != {} {
        return Failure(violations);
      }
      var key;
      if row.id.Some? && row.id.value in events {
        key := row.id.value;
        events := events[key := row];
      } else {
        key := nextId;
        events := events[key := row.(id := Some(key))];
        nextId := nextId + 1;
      }
      saved := Success(key);
    }

    /** `getAllEvents`: copies the stored events one by one, in whatever
        order the repository yields them. Every stored event appears exactly
        once and nothing else does. */
    method GetAllEvents() returns (all: seq<EventData>)
      requires Valid()
      ensures |all| == |events|
      ensures forall i :: 0 <= i < |all| ==>
        all[i].id.Some? && all[i].id.value in events && events[all[i].id.value] == all[i]
      ensures forall k :: k in events ==> events[k] in all
      ensures forall i, j :: 0 <= i < j < |all| ==> all[i] != all[j]
    {
      all := [];
      var left := events.Keys;
      while left != {}
        invariant left <= events.Keys
        invariant |all| + |left| == |events.Keys|
        invariant forall i :: 0 <= i < |all| ==>
          all[i].id.Some? && all[i].id.value in events && all[i].id.value !in left
          && events[all[i].id.value] == all[i]
        invariant forall k :: k in events && k !in left ==> events[k] in all
        invariant forall i, j :: 0 <= i < j < |all| ==> all[i] != all[j]
        decreases |left|
      {
        // The witness tells the verifier that the choice below has a value.
        ghost var next := Member(left);
        var k :| k in left;
        all := all + [events[k]];
        left := left - {k};
      }
    }

    /** `getEventById`: the stored event, or absent when the id is not
        stored; a missing id is an ordinary outcome, not an error. */
    method GetEventById(id: EventId) returns (found: Option<EventData>)
      requires Valid()
      ensures found.Some? <==> id in events
      ensures found.Some? ==> found.value == events[id] && found.value.id == Some(id)
    {
      if id in events {
        found := Some(events[id]);
      } else {
        found := None;
      }
    }

    /** `createEvent`: saves the draft. A draft without an id gets the
        generated id written back into it, as the persistence layer does on
        insert; a draft that fails validation is rejected before any id is
        generated, so it and the repository stay as they were. */
    method CreateEvent(draft: Event) returns (created: Result<EventData, set<string>>)
      requires Valid()
      modifies this, draft
      ensures Valid()
      ensures match EventStore.Save(old(Model()), old(draft.Data()))
        case Success((s, key)) =>
          && Model() == s && created == Success(s.events[key])
          && (old(draft.id).None? ==> draft.Data() == s.events[key])
          && (old(draft.id).Some? ==> draft.Data() == old(draft.Data()))
        case Failure(violations) =>
          && Model() == old(Model()) && created == Failure(violations)
          && draft.Data() == old(draft.Data())
    {
      var saved := SaveRow(draft.Data());
      match saved
      case Failure(violations) =>
        created := Failure(violations);
      case Success(key) =>
        if draft.id.None? {
          draft.SetId(Some(key));
        }
        created := Success(events[key]);
    }

    /** `updateEvent`: loads the stored event, applies the five setters with
        the values from `details`, and saves it; the save rejects values that
        violate a constraint. */
    method UpdateEvent(id: EventId, details: Event) returns (updated: Result<Option<EventData>, set<string>>)
      requires Valid()
      modifies this
      ensures Valid()
      ensures match EventStore.Update(old(Model()), id, details.Data())
        case Success((s, u)) => Model() == s && updated == Success(u)
        case Failure(violations) => Model() == old(Model()) && updated == Failure(violations)
    {
      if id !in events {
        return Success(None);
      }
      var event := new Event.Load(events[id]);
      event.SetName(details.name);
      event.SetDescription(details.description);
      event.SetDate(details.date);
      event.SetLocation(details.location);
      event.SetTime(details.time);
      ValidationIgnoresIdAndUsers(details.Data(), event.id, event.registeredUsers);
      var saved := SaveRow(event.Data());
      match saved
      case Failure(violations) =>
        updated := Failure(violations);
      case Success(key) =>
        updated := Success(Some(events[key]));
    }

    /** `deleteEvent`: checks existence first, then removes the row. */
    method DeleteEvent(id: EventId) returns (deleted: bool)
      requires Valid()
      modifies this
      ensures Valid()
      ensures (Model(), deleted) == EventStore.Delete(old(Model()), id)
    {
      if id in events {
        events := events - {id};
        deleted := true;
      } else {
        deleted := false;
      }
    }

    /** `registerEvent`: finds the event, then the user, adds the user to the
        event's registered users in place and saves the event. A failure
        leaves both repositories as they were. */
    method RegisterEvent(eventId: EventId, request: RegistrationRequest)
      returns (outcome: Outcome<EventStore.RegisterError>)
      requires Valid()
      modifies this
      ensures Valid()
      ensures match EventStore.Register(old(Model()), eventId, request.userId)
        case Success(s) => outcome == Pass && Model() == s
        case Failure(e) => outcome == Fail(e) && Model() == old(Model())
    {
      if eventId !in events {
        return Fail(EventStore.EventNotFound);
      }
      var event := new Event.Load(events[eventId]);
      if request.userId.None? {
        return Fail(EventStore.NullUserId);
      }
      var user := request.userId.value;
      if user !in users {
        return Fail(EventStore.UserNotFound);
      }
      event.registeredUsers := event.registeredUsers + {user};
      // The stored event passed validation, and the users carry no constraint.
      ValidationIgnoresIdAndUsers(events[eventId], event.id, event.registeredUsers);
      var saved := SaveRow(event.Data());
      assert saved.Success?;
      outcome := Pass;
    }

    /** `generateEventPdf`: absent when the event is missing or rendering
        fails (the caller cannot tell which), the rendered bytes otherwise.
        Nothing is written. */
    method GenerateEventPdf(id: EventId) returns (pdf: Option<seq<byte>>)
      requires Valid()
      ensures id !in events ==> pdf == None
      ensures id in events ==> pdf == render(events[id])
      ensures pdf.Some? ==> id in events && render(events[id]).Some?
    {
      if id in events {
        pdf := render(events[id]);
      } else {
        pdf := None;
      }
    }
  }

  /** A non-empty set has a member (gives the verifier a witness for the
      choice of the next key to copy). */
  lemma Member<T>(s: set<T>) returns (x: T)
    requires s != {}
    ensures x in s
  {
    x :| x in s;
  }

  /** A client run through the life of one event: create it, read it back,
      delete it, and find it gone. */
  method LaunchScenario() {
    var service := new EventService(EventStore.Store(map[], {42}, 1), (e: EventData) => Some([37 as byte]));

    var draft := new Event();
    draft.SetName(Some("Launch"));
    draft.SetDescription(Some("Product launch"));
    draft.SetDate(Some("2025-06-01"));
    draft.SetLocation(Some("HQ"));
    draft.SetTime(Some("10:00"));
    assert "Launch"[0] > ' ' && "Product launch"[0] > ' ' && "HQ"[0] > ' ';
    var created := service.CreateEvent(draft);
    assert created.Success? && created.value.id == Some(1) && draft.id == Some(1);

    var found := service.GetEventById(1);
    assert found == Some(created.value) && found.value.registeredUsers == {};
    assert found.value.name == Some("Launch");

    var deleted := service.DeleteEvent(1);
    assert deleted;
    found := service.GetEventById(1);
    assert found == None;
    deleted := service.DeleteEvent(1);
    assert !deleted;

    var pdf := service.GenerateEventPdf(1);
    assert pdf == None;
  }

  /** A client whose draft has a blank name: the create is rejected with
      that constraint's message, no id is handed out, and nothing is stored. */
  method RejectedDraftScenario() {
    var service := new EventService(EventStore.Store(map[], {}, 1), (e: EventData) => None);

    var draft := new Event();
    draft.SetName(Some("  "));
    draft.SetDescription(Some("Product launch"));
    draft.SetDate(Some("2025-06-01"));
    draft.SetLocation(Some("HQ"));
    draft.SetTime(Some("10:00"));
    var created := service.CreateEvent(draft);
    assert created.Failure? && EventEntity.NameMandatory in created.error;
    assert draft.id == None && service.events == map[] && service.nextId == 1;
  }

  /** A client registering one user twice for a stored event, and once for an
      event that does not exist. */
  method RegistrationScenario() {
    var launch := EventData(Some(1), Some("Launch"), Some("Product launch"), Some("2025-06-01"),
                            Some("HQ"), Some("10:00"), {});
    assert "Launch"[0] > ' ' && "Product launch"[0] > ' ' && "HQ"[0] > ' ';
    assert EventEntity.Violations(launch) == {};
    var service := new EventService(EventStore.Store(map[1 := launch], {42}, 2), (e: EventData) => None);

    var request := new RegistrationRequest();
    request.SetUserId(Some(42));
    request.SetEmail(Some("a@b.com"));
    request.SetName(Some("Ann"));
    var outcome := service.RegisterEvent(1, request);
    assert outcome == Pass;
    assert service.events[1] == launch.(registeredUsers := launch.registeredUsers + {42});
    assert launch.registeredUsers + {42} == {42};
    var found := service.GetEventById(1);
    assert found == Some(launch.(registeredUsers := {42}));

    outcome := service.RegisterEvent(1, request);
    assert outcome == Pass;
    found := service.GetEventById(1);
    assert found.value.registeredUsers == {42};

    outcome := service.RegisterEvent(2, request);
    assert outcome == Fail(EventStore.EventNotFound);

    var pdf := service.GenerateEventPdf(1);
    assert pdf == None;
  }
}
