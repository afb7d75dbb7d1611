/** The `RegistrationRequest` envelope: the fields a caller sends to register
    a user for an event, the mutable object with its setters, and the field
    constraints declared on it. */
module Registration {
  import opened Common

  /** The three fields of a request, any of which may be null. */
  datatype RequestFields = RequestFields(userId: Option<UserId>, email: Text, name: Text)

  /** The request object, whose setters update its fields in place. Reading a
      field is what its getter does. */
  class RegistrationRequest {
    var userId: Option<UserId>
    var email: Text
    var name: Text

    /** The request's current fields as a value. */
    function Fields(): RequestFields
      reads this
    {
      RequestFields(userId, email, name)
    }

    /** The implicit no-argument constructor: every field is null. */
    constructor ()
      ensures Fields() == RequestFields(None, None, None)
    {
      userId, email, name := None, None, None;
    }

    method SetUserId(userId: Option<UserId>)
      modifies this
      ensures Fields() == old(Fields()).(userId := userId)
    {
      this.userId := userId;
    }

    method SetEmail(email: Text)
      modifies this
      ensures Fields() == old(Fields()).(email := email)
    {
      this.email := email;
    }

    method SetName(name: Text)
      modifies this
      ensures Fields() == old(Fields()).(name := name)
    {
      this.name := name;
    }
  }

  // ---------------------------------------------------------------------
  // Field constraints (Bean Validation annotations on the request)
  // ---------------------------------------------------------------------

  const MinNameLength := 2

  const UserIdMandatory := "User ID is mandatory"
  const EmailMandatory := "Email is mandatory"
  const EmailInvalid := "Email should be valid"
  const NameMandatory := "Name is mandatory"
  const NameTooShort := "Name should have at least 2 characters"

  /** Every message the request constraints can report. */
  const RequestMessages: set<string> :=
    {UserIdMandatory, EmailMandatory, EmailInvalid, NameMandatory, NameTooShort}

  /** The messages of every violated constraint. `isEmail` is the syntax
      check behind `@Email`; like `@Size`, `@Email` accepts a null value, so
      a null email reports only the `@NotNull` message. */
  function Violations(r: RequestFields, isEmail: string -> bool): (v: set<string>)
    ensures v <= RequestMessages
    ensures UserIdMandatory in v <==> r.userId.None?
    ensures EmailMandatory in v <==> r.email.None?
    ensures EmailInvalid in v <==> r.email.Some? && !isEmail(r.email.value)
    ensures NameMandatory in v <==> r.name.None?
    ensures NameTooShort in v <==> r.name.Some? && |r.name.value| < MinNameLength
  {
    Report(r.userId.Some?, UserIdMandatory)
    + Report(r.email.Some?, EmailMandatory)
    + Report(r.email.None? || isEmail(r.email.value), EmailInvalid)
    + Report(r.name.Some?, NameMandatory)
    + Report(r.name.None? || |r.name.value| >= MinNameLength, NameTooShort)
  }

  /** A request passes validation exactly when it names a user, carries a
      well-formed email and a name of at least two characters. */
  lemma AcceptedRequest(r: RequestFields, isEmail: string -> bool)
    ensures Violations(r, isEmail) == {}
        <==> (&& r.userId.Some?
              && r.email.Some? && isEmail(r.email.value)
              && r.name.Some? && |r.name.value| >= MinNameLength)
  {
  }

  /** A request with every field null reports the three `@NotNull` messages
      and nothing else: the format and length constraints pass on null. */
  lemma EmptyRequestViolations(isEmail: string -> bool)
    ensures Violations(RequestFields(None, None, None), isEmail)
         == {UserIdMandatory, EmailMandatory, NameMandatory}
  {
  }

  /** Constraints are independent: changing one field changes only the
      messages that belong to that field. */
  lemma NameOnlyAffectsNameMessages(r: RequestFields, name: Text, isEmail: string -> bool)
    ensures Violations(r.(name := name), isEmail) - {NameMandatory, NameTooShort}
         == Violations(r, isEmail) - {NameMandatory, NameTooShort}
  {
  }
}
