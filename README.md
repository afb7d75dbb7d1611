# Event management: a Dafny model of the event service

This project models the domain core of a small event-management backend.
An `Event` has a name, description, date, location, time and a set of
registered users. A `RegistrationRequest` carries the id of the user to
register, with an email and a name used only for validation. The
`EventServiceImpl` service lists, reads, creates, updates and deletes events,
registers users for events, and exports an event as a PDF.

The model has five modules:

- `Common` (common.dfy) holds the shared vocabulary. Java references that
  may be null become `Option`, and thrown exceptions become `Result` or
  `Outcome`. A `Long` id is an `int`, and a Java `String` field is `Text`
  (`Option<string>`). It also holds `Report`, the message one violated
  constraint contributes.
- `EventEntity` (event.dfy) models Event.java. `EventData` is an event's state
  as a value. The `Event` class is the mutable entity, whose setters change
  one field each. `Violations` turns the field annotations into an explicit
  set of messages.
- `Registration` (registration_request.dfy) does the same for
  RegistrationRequest.java. The `@Email` syntax check is passed in as a
  predicate `isEmail`.
- `EventStore` (event_store.dfy) models the two repositories as one value,
  `Store`. The event table is a `map<EventId, EventData>`, each row holding
  its registered users. The user table is a `set<UserId>`. `nextId` is the
  identity counter. Each service operation has a transition function
  (`Save`, `Update`, `Delete`, `Register`), and lemmas state what the
  operations promise across several calls.
- `Service` (event_service.dfy) models EventServiceImpl.java as the class
  `EventService`. Its fields are the repositories. Its methods do what the
  Java methods do, step by step. `updateEvent` loads an `Event` object and
  calls the five setters. `registerEvent` adds to the loaded event's set in
  place. `getAllEvents` copies rows one at a time in a loop. Each method is
  proved against the matching `EventStore` function. `LaunchScenario`,
  `RegistrationScenario` and `RejectedDraftScenario` are verified clients
  that walk through an event's life.

The model returns every stored event as a value (`EventData`). The PDF
renderer is a constructor parameter `render`, a function from an event to
`Option<seq<byte>>`, where `None` means that rendering threw or returned
null.

Three behaviours of the code that are easy to misread:

- The service methods check no constraint themselves. `Event` is a
  persistent entity, and the persistence layer validates its constraints
  before every insert and update. A `save` of an event that violates one
  fails, and nothing is written. `createEvent` and `updateEvent` therefore
  return either the saved event or the set of violated constraints'
  messages. Every stored event passes validation, and that is part of the
  store invariant `EventStore.Valid`.
- A registration request with a null user id fails after the event lookup.
  The user repository's `findById` rejects the null id (`NullUserId`), so
  the error is not "User not found".
- `createEvent` saves any valid draft through the repository's upsert:
  - A draft whose id is already stored overwrites that row.
  - Any other draft is inserted under a newly generated id.
  - When the draft had no id, the generated id is written back into it.

## Model

| member | source | states |
|---|---|---|
| `EventEntity.Event.constructor` | Event.java:14-68 | A new entity has every field null and no registered users |
| `EventEntity.Event.Load` | EventServiceImpl.java:86 | The entity the event repository's `findById` loads holds exactly the stored row (also EventServiceImpl.java:127) |
| `EventEntity.Event.SetId` | Event.java:76-78 | Only `id` changes, and it then holds the value given |
| `EventEntity.Event.SetName` | Event.java:84-86 | Only `name` changes, and it then holds the value given |
| `EventEntity.Event.SetDescription` | Event.java:92-94 | Only `description` changes, and it then holds the value given |
| `EventEntity.Event.SetDate` | Event.java:100-102 | Only `date` changes, and it then holds the value given |
| `EventEntity.Event.SetLocation` | Event.java:108-110 | Only `location` changes, and it then holds the value given |
| `EventEntity.Event.SetTime` | Event.java:116-118 | Only `time` changes, and it then holds the value given |
| `EventEntity.Event.SetRegisteredUsers` | Event.java:124-126 | Only `registeredUsers` changes, and it then holds the set given |
| `EventEntity.Violations` | Event.java:24-56 | Each of the eight constraints reports its own message exactly when it is violated. Blank or null fails `@NotBlank`, a null value passes `@Size`, and nothing else is reported |
| `EventEntity.AcceptedEvent` | Event.java:24-56 | A valid event's name (at most 100 chars), description (at most 500) and location (at most 200) are non-null with a non-blank character, and its date and time are non-null |
| `EventEntity.FilledEventAccepted` | Event.java:24-56 | Conversely, an event meeting those field conditions has no violation |
| `EventEntity.DateAndTimeUnformatted` | Event.java:40-41 | Any non-null date and time, the empty string included, clear their two messages and change no other message (also Event.java:55-56) |
| `EventEntity.ValidationIgnoresIdAndUsers` | Event.java:16-68 | The id and the registered users never affect validation |
| `Registration.RegistrationRequest.constructor` | RegistrationRequest.java:12-35 | A new request has every field null |
| `Registration.RegistrationRequest.SetUserId` | RegistrationRequest.java:43-45 | Only `userId` changes, and it then holds the value given |
| `Registration.RegistrationRequest.SetEmail` | RegistrationRequest.java:51-53 | Only `email` changes, and it then holds the value given |
| `Registration.RegistrationRequest.SetName` | RegistrationRequest.java:59-61 | Only `name` changes, and it then holds the value given |
| `Registration.Violations` | RegistrationRequest.java:18-35 | A null userId reports "User ID is mandatory". A null email reports "Email is mandatory", and a non-null ill-formed one "Email should be valid". A null name reports "Name is mandatory", and a non-null one shorter than 2 chars "Name should have at least 2 characters". Nothing else is reported |
| `Registration.AcceptedRequest` | RegistrationRequest.java:18-35 | No message if and only if userId is non-null, email is non-null and well-formed, and name is non-null with at least 2 chars |
| `Registration.EmptyRequestViolations` | RegistrationRequest.java:18-35 | An all-null request reports exactly the three `@NotNull` messages, because format and length checks pass on null |
| `Registration.NameOnlyAffectsNameMessages` | RegistrationRequest.java:33-35 | Constraints are independent: changing the name changes no message of another field |
| `EventStore.Save` | EventServiceImpl.java:72-76 | Fails exactly when the row violates a constraint, reporting exactly its violations. On success it keeps the store well-formed, with each row valid, under its own id, and the counter past every id. A row whose id is stored overwrites it, and any other row goes under an id greater than every stored one. The saved row carries its key, and every other row and the user table are unchanged |
| `EventStore.Update` | EventServiceImpl.java:85-101 | On a missing id it returns absent and the store is unchanged. On a stored id it fails exactly when the details violate a constraint, reporting those violations. Otherwise name, description, date, location and time take the details' values, while the id, the registered users and every other row stay |
| `EventStore.Delete` | EventServiceImpl.java:109-118 | Returns true if and only if the id was stored. Afterwards the id is absent, and the other rows, the users and the counter are unchanged |
| `EventStore.Register` | EventServiceImpl.java:126-143 | Fails with EventNotFound exactly when the event is missing. Otherwise it fails with NullUserId on a null user id, then with UserNotFound on an unknown user. On success the event's users become the old set plus the user, and nothing else changes (the save of the stored, valid event cannot fail) |
| `EventStore.Message` | EventServiceImpl.java:130-136 | The event-missing error carries "Event not found" and the user-missing error "User not found", and no other error carries either message |
| `EventStore.CreateStoresFresh` | EventServiceImpl.java:72-76 | Creating from a valid draft without an id succeeds and stores it under an id not previously stored, with that id and the draft's fields. Every earlier event is unchanged |
| `EventStore.InvalidDraftRejected` | EventServiceImpl.java:73 | Saving a draft that violates a constraint fails with exactly its violations |
| `EventStore.Step` | EventServiceImpl.java:72-143 | Every writing operation (create, update, delete, register) keeps the store invariant, whether it succeeds or fails |
| `EventStore.StepKeepsRetired` | EventServiceImpl.java:72-143 | An id that was handed out and is no longer stored is still not stored after any one writing operation |
| `EventStore.RetiredStaysRetired` | EventServiceImpl.java:72-143 | The same holds after any sequence of writing operations |
| `EventStore.DeletedIdStaysFree` | EventServiceImpl.java:109-118 | After a delete, no sequence of later creates, updates, deletes or registrations stores anything under the deleted id, not even a draft still carrying that id. Every later delete of that id returns false |
| `EventStore.DeleteTwice` | EventServiceImpl.java:109-118 | A second delete of the same id returns false and writes nothing |
| `EventStore.UpdateIdempotent` | EventServiceImpl.java:85-101 | An update that is not rejected, repeated with the same details, gives the same state and result as updating once |
| `EventStore.UpdatedEventValidation` | EventServiceImpl.java:88-93 | An update is stored only when the details pass validation, and the stored event then passes it too. A failed update reports exactly the details' violations, which are non-empty |
| `EventStore.RegisterIdempotent` | EventServiceImpl.java:126-143 | Registering the same (event, user) twice gives the same state as registering once |
| `EventStore.RegisterAlreadyRegistered` | EventServiceImpl.java:139-140 | Registering a user who is already registered leaves the store unchanged, so no user appears twice |
| `EventStore.RegisterCommutes` | EventServiceImpl.java:139-140 | Two registrations for one event give the same state in either order: the old set plus both users |
| `EventStore.EventCheckedFirst` | EventServiceImpl.java:127-131 | A missing event is reported as "Event not found" whatever the user id |
| `Service.EventService.constructor` | EventServiceImpl.java:24-33 | The service starts with the repositories it is handed |
| `Service.EventService.SaveRow` | EventServiceImpl.java:73 | The repository `save`: on success the new state and key are those of `EventStore.Save`. On failure it reports the same violations, and the store is unchanged |
| `Service.EventService.GetAllEvents` | EventServiceImpl.java:40-46 | Returns one entry per stored event. Every entry is a stored event under its own id, every stored event appears, none appears twice, and nothing is written |
| `Service.EventService.GetEventById` | EventServiceImpl.java:54-64 | Returns the stored event (carrying that id) if and only if the id is stored, and absent otherwise. Nothing is written |
| `Service.EventService.CreateEvent` | EventServiceImpl.java:72-76 | The new state and the returned event are those of `EventStore.Save` on the draft. A draft without an id gets the generated id written into it, and any other draft is left untouched. A draft that fails validation gets its violations back, and the draft and the store are unchanged |
| `Service.EventService.UpdateEvent` | EventServiceImpl.java:85-101 | Loading the event, applying the five setters and saving gives exactly the state and result of `EventStore.Update`. This includes the rejection of invalid details, with the store unchanged |
| `Service.EventService.DeleteEvent` | EventServiceImpl.java:109-118 | The state and result are those of `EventStore.Delete` |
| `Service.EventService.RegisterEvent` | EventServiceImpl.java:126-143 | On success the state is that of `EventStore.Register`. On failure it returns the same error and the store is unchanged |
| `Service.EventService.GenerateEventPdf` | EventServiceImpl.java:151-167 | Absent when the event is missing or rendering fails, the rendered bytes of the stored event otherwise. Nothing is written |

## Left out

- Logging through SLF4J is side output with no effect on any result, so it is not modelled.
- Spring wiring (`@Service`, `@Autowired`) is replaced by handing the repositories and the renderer to the constructor.
- Getters are not separate members: reading a field is what each getter does.
- Identity generation is a counter that starts where the constructor's store says. The 64-bit width of `Long` ids is not modelled.
- The `event_user` join table is the set inside each row. Deleting a row drops its set, which stands for the mapper's cascade.
- Transactions, persistence failures other than a Bean Validation violation, and the lost-update race of concurrent `registerEvent` calls are outside a sequential model.
- EventStore.Save: the `event_user` join table's foreign key to the user table is not modelled. A draft whose `registeredUsers` names an unknown user id is stored with that id here, where the database would refuse the row.
- Service.EventService.GetEventById, GetAllEvents, CreateEvent, UpdateEvent: the returned entity is a value. Its identity with the persistence context's managed instance is not modelled, nor is the aliasing that follows from it. With the context still open, a caller holding an event from `getEventById` would see a later `updateEvent` of the same row. The lazily loaded `registeredUsers` collection, which `registerEvent` can only read while that context is open, is likewise read here as an ordinary set.
- A null `id`, `eventId`, `event` or `request` argument raises an exception in Java and is not modelled: these parameters are never null here. A null `eventDetails` throws only when the id is stored. On a missing id Java returns null, which `Success(None)` already gives for any details.
- CreateEvent: a draft carrying an id that is not stored gets a newly generated id and is itself left untouched. This follows the mapper's merge of a detached entity, which depends on the mapper's version.
- `PdfService.createEventPdf` is not part of this model. It is the parameter `render`, so the model cannot promise that the bytes are non-empty or are a PDF.
- A save rejected by validation throws a constraint-violation exception in Java. The model returns the violated constraints' messages instead. The model assumes a validation provider is present, because the default validation mode validates only then.
- The `@Email` syntax check is library code. It is the parameter `isEmail`.
- `@NotBlank` is read as the reference validator's `trim()` test: a string is blank when every character is at or below U+0020. Java `String.length()` counts UTF-16 units, while the model counts characters, so lengths differ for characters outside the Basic Multilingual Plane.
- `setRegisteredUsers(null)` and a never-set collection are both the empty set, which is what the mapper loads for an event with no join rows.
- The `User` entity is not part of this model: a user is its id. Nor are the HTTP controllers or the repository interfaces.
