/** The `Event` entity: its state as a value, the mutable entity object with
    its setters, and the field constraints declared on it. */
module EventEntity {
  import opened Common

  /** The state of one event: the columns of its row and the users linked to
      it through the join table. A null `registeredUsers` collection stands
      for no join rows, so it is the empty set here. */
  datatype EventData = EventData(
    id: Option<EventId>,
    name: Text,
    description: Text,
    date: Text,
    location: Text,
    time: Text,
    registeredUsers: set<UserId>)

  /** The entity object, whose setters update its fields in place. Reading a
      field is what its getter does. */
  class Event {
    var id: Option<EventId>
    var name: Text
    var description: Text
    var date: Text
    var location: Text
    var time: Text
    var registeredUsers: set<UserId>

    /** The entity's current state as a value. */
    function Data(): EventData
      reads this
    {
      EventData(id, name, description, date, location, time, registeredUsers)
    }

    /** The implicit no-argument constructor: every field is null and no
        user is registered. */
    constructor ()
      ensures Data() == EventData(None, None, None, None, None, None, {})
    {
      id, name, description, date, location, time := None, None, None, None, None, None;
      registeredUsers := {};
    }

    /** An entity object as the persistence layer materialises it from a row. */
    constructor Load(row: EventData)
      ensures Data() == row
    {
      id, name, description, date := row.id, row.name, row.description, row.date;
      location, time, registeredUsers := row.location, row.time, row.registeredUsers;
    }

    method SetId(id: Option<EventId>)
      modifies this
      ensures Data() == old(Data()).(id := id)
    {
      this.id := id;
    }

    method SetName(name: Text)
      modifies this
      ensures Data() == old(Data()).(name := name)
    {
      this.name := name;
    }

    method SetDescription(description: Text)
      modifies this
      ensures Data() == old(Data()).(description := description)
    {
      this.description := description;
    }

    method SetDate(date: Text)
      modifies this
      ensures Data() == old(Data()).(date := date)
    {
      this.date := date;
    }

    method SetLocation(location: Text)
      modifies this
      ensures Data() == old(Data()).(location := location)
    {
      this.location := location;
    }

    method SetTime(time: Text)
      modifies this
      ensures Data() == old(Data()).(time := time)
    {
      this.time := time;
    }

    method SetRegisteredUsers(registeredUsers: set<UserId>)
      modifies this
      ensures Data() == old(Data()).(registeredUsers := registeredUsers)
    {
      this.registeredUsers := registeredUsers;
    }
  }

  // ---------------------------------------------------------------------
  // Field constraints (Bean Validation annotations on the entity)
  // ---------------------------------------------------------------------

  const MaxNameLength := 100
  const MaxDescriptionLength := 500
  const MaxLocationLength := 200

  const NameMandatory := "Event name is mandatory"
  const NameTooLong := "Event name must not exceed 100 characters"
  const DescriptionMandatory := "Event description is mandatory"
  const DescriptionTooLong := "Event description must not exceed 500 characters"
  const DateMandatory := "Event date is mandatory"
  const LocationMandatory := "Event location is mandatory"
  const LocationTooLong := "Event location must not exceed 200 characters"
  const TimeMandatory := "Event time is mandatory"

  /** Every message the event constraints can report. */
  const EventMessages: set<string> := {
    NameMandatory, NameTooLong, DescriptionMandatory, DescriptionTooLong,
    DateMandatory, LocationMandatory, LocationTooLong, TimeMandatory }

  /** `@NotBlank`: not null, and something is left once the characters at or
      below U+0020 are trimmed away. */
  predicate NotBlank(t: Text) {
    t.Some? && exists i :: 0 <= i < |t.value| && t.value[i] > ' '
  }

  /** `@Size(max = ...)`: a null value satisfies it. */
  predicate AtMost(t: Text, max: nat) {
    t.None? || |t.value| <= max
  }

  /** The messages of every violated constraint. Each constraint is checked
      on its own, so several fields (and both constraints of one field) can
      each contribute a message. */
  function Violations(e: EventData): (v: set<string>)
    ensures v <= EventMessages
    ensures NameMandatory in v <==> !NotBlank(e.name)
    ensures NameTooLong in v <==> !AtMost(e.name, MaxNameLength)
    ensures DescriptionMandatory in v <==> !NotBlank(e.description)
    ensures DescriptionTooLong in v <==> !AtMost(e.description, MaxDescriptionLength)
    ensures DateMandatory in v <==> e.date.None?
    ensures LocationMandatory in v <==> !NotBlank(e.location)
    ensures LocationTooLong in v <==> !AtMost(e.location, MaxLocationLength)
    ensures TimeMandatory in v <==> e.time.None?
  {
    Report(NotBlank(e.name), NameMandatory)
    + Report(AtMost(e.name, MaxNameLength), NameTooLong)
    + Report(NotBlank(e.description), DescriptionMandatory)
    + Report(AtMost(e.description, MaxDescriptionLength), DescriptionTooLong)
    + Report(e.date.Some?, DateMandatory)
    + Report(NotBlank(e.location), LocationMandatory)
    + Report(AtMost(e.location, MaxLocationLength), LocationTooLong)
    + Report(e.time.Some?, TimeMandatory)
  }

  /** A string with at least one character above U+0020 and at most `max`
      characters. */
  predicate Filled(s: string, max: nat) {
    |s| <= max && exists i :: 0 <= i < |s| && s[i] > ' '
  }

  /** An event that passes validation has a filled name, description and
      location within their length limits, and a non-null date and time. */
  lemma AcceptedEvent(e: EventData)
    requires Violations(e) == {}
    ensures e.name.Some? && Filled(e.name.value, MaxNameLength)
    ensures e.description.Some? && Filled(e.description.value, MaxDescriptionLength)
    ensures e.location.Some? && Filled(e.location.value, MaxLocationLength)
    ensures e.date.Some? && e.time.Some?
  {
  }

  /** Conversely, such an event produces no message. */
  lemma FilledEventAccepted(e: EventData)
    requires e.name.Some? && Filled(e.name.value, MaxNameLength)
    requires e.description.Some? && Filled(e.description.value, MaxDescriptionLength)
    requires e.location.Some? && Filled(e.location.value, MaxLocationLength)
    requires e.date.Some? && e.time.Some?
    ensures Violations(e) == {}
  {
  }

  /** Date and time carry no format: any non-null strings, the empty one
      included, clear their constraints and leave every other message as it
      was. */
  lemma DateAndTimeUnformatted(e: EventData, date: string, time: string)
    ensures Violations(e.(date := Some(date), time := Some(time)))
         == Violations(e) - {DateMandatory, TimeMandatory}
  {
  }

  /** Validation looks only at the five descriptive fields: the id and the
      registered users never affect it. */
  lemma ValidationIgnoresIdAndUsers(e: EventData, id: Option<EventId>, users: set<UserId>)
    ensures Violations(e.(id := id, registeredUsers := users)) == Violations(e)
  {
  }
}
