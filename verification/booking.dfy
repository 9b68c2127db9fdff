/**
 The booking record and the schema that validates and normalises a submitted
 body into one (backend/models/Booking.js). The schema's declarative rules
 (required, trim, lowercase, default, enum) are restated here as one explicit
 function, `Normalise`, that either returns the record the store would hold or
 lists every offending field.
 */
module Bookings {
  import opened Results
  import opened Text

  /** The store's opaque record identity, as the JSON `_id` string the client sees. */
  type Id = string

  /** A creation time in milliseconds, as `Date.now` returns it. */
  type Timestamp = int

  const Pending: string := "pending"
  const Completed: string := "completed"
  const Cancelled: string := "cancelled"

  /** The `status` enumeration, in the schema's order. */
  const StatusValues: seq<string> := [Pending, Completed, Cancelled]

  predicate IsStatus(s: string) {
    s in StatusValues
  }

  /** A stored booking. */
  datatype Booking = Booking(
    id: Id,
    name: string,
    email: string,
    phone: string,
    service: string,
    date: string,
    time: string,
    notes: string,
    status: string,
    createdAt: Timestamp)

  /** A submitted body: each schema field may be absent. */
  datatype Candidate = Candidate(
    name: Option<string>,
    email: Option<string>,
    phone: Option<string>,
    service: Option<string>,
    date: Option<string>,
    time: Option<string>,
    notes: Option<string>,
    status: Option<string>,
    createdAt: Option<Timestamp>)

  /** The schema's required fields. */
  datatype Field = Name | Email | Phone | Service | Date | Time

  const RequiredFields: seq<Field> := [Name, Email, Phone, Service, Date, Time]

  /** One entry of a validation failure. */
  datatype FieldError = Required(field: Field) | NotInEnum(value: string)

  function Supplied(c: Candidate, f: Field): Option<string> {
    match f
    case Name => c.name
    case Email => c.email
    case Phone => c.phone
    case Service => c.service
    case Date => c.date
    case Time => c.time
  }

  /** Whether the schema trims the field before the `required` check sees it. */
  predicate IsTrimmedField(f: Field) {
    f == Name || f == Email || f == Phone || f == Service
  }

  /**
   A required string is missing when absent or empty once its setters have
   run. Lower-casing never empties a non-empty string, so for `email` only
   the trim matters here.
   */
  predicate IsMissing(c: Candidate, f: Field) {
    var v := Supplied(c, f);
    v.None? || (if IsTrimmedField(f) then Trim(v.value) else v.value) == []
  }

  /** Every required field is present and non-empty after its setters. */
  predicate IsComplete(c: Candidate) {
    && c.name.Some? && Trim(c.name.value) != []
    && c.email.Some? && Trim(c.email.value) != []
    && c.phone.Some? && Trim(c.phone.value) != []
    && c.service.Some? && Trim(c.service.value) != []
    && c.date.Some? && c.date.value != []
    && c.time.Some? && c.time.value != []
  }

  predicate HasBadStatus(c: Candidate) {
    c.status.Some? && !IsStatus(c.status.value)
  }

  /** The `required` errors for the fields `fs`, in their order. */
  function MissingErrors(c: Candidate, fs: seq<Field>): (errs: seq<FieldError>)
    ensures forall e :: e in errs ==> e.Required?
    ensures forall f :: Required(f) in errs <==> f in fs && IsMissing(c, f)
  {
    if fs == [] then []
    else (if IsMissing(c, fs[0]) then [Required(fs[0])] else []) + MissingErrors(c, fs[1..])
  }

  /**
   A record in the form the schema leaves it: required text non-empty, trimmed
   fields without surrounding whitespace, email without upper-case letters,
   status in the enumeration.
   */
  predicate IsNormalised(b: Booking) {
    && b.name != [] && IsTrimmed(b.name)
    && b.email != [] && IsTrimmed(b.email) && HasNoUpper(b.email)
    && b.phone != [] && IsTrimmed(b.phone)
    && b.service != [] && IsTrimmed(b.service)
    && b.date != [] && b.time != []
    && IsTrimmed(b.notes)
    && IsStatus(b.status)
  }

  /** Every validation error of a body, in schema order. */
  function ErrorsOf(c: Candidate): (errs: seq<FieldError>)
    ensures forall f :: Required(f) in errs <==> IsMissing(c, f)
    ensures forall v :: NotInEnum(v) in errs <==> c.status == Some(v) && !IsStatus(v)
    ensures errs == [] <==> IsComplete(c) && !HasBadStatus(c)
  {
    var missing := MissingErrors(c, RequiredFields);
    MissingErrorsOfAll(c);
    missing + (if HasBadStatus(c) then [NotInEnum(c.status.value)] else [])
  }

  /** The record a valid body becomes: setters applied and defaults filled in. */
  function Build(c: Candidate, id: Id, now: Timestamp): (b: Booking)
    requires IsComplete(c)
    requires !HasBadStatus(c)
    ensures IsNormalised(b) && b.id == id
    ensures && b.name == Trim(c.name.value)
            && b.email == Lower(Trim(c.email.value))
            && b.phone == Trim(c.phone.value)
            && b.service == Trim(c.service.value)
            && b.date == c.date.value
            && b.time == c.time.value
    ensures b.notes == (if c.notes.None? then "" else Trim(c.notes.value))
    ensures b.status == (if c.status.None? then Pending else c.status.value)
    ensures b.createdAt == (if c.createdAt.None? then now else c.createdAt.value)
  {
    LowerHasNoUpper(Trim(c.email.value));
    LowerKeepsTrimmed(Trim(c.email.value));
    Booking(
      id,
      Trim(c.name.value),
      Lower(Trim(c.email.value)),
      Trim(c.phone.value),
      Trim(c.service.value),
      c.date.value,
      c.time.value,
      if c.notes.None? then "" else Trim(c.notes.value),
      if c.status.None? then Pending else c.status.value,
      if c.createdAt.None? then now else c.createdAt.value)
  }

  /**
   Validate a submitted body and build the record the store would save, with
   identity `id` and `now` as the clock reading for the `createdAt` default.
   Validation reports every offending field at once.
   */
  function Normalise(c: Candidate, id: Id, now: Timestamp): (r: Result<Booking, seq<FieldError>>)
    ensures r.Success? <==> IsComplete(c) && !HasBadStatus(c)
    ensures r.Failure? ==> forall f :: Required(f) in r.error <==> IsMissing(c, f)
    ensures r.Failure? ==> forall v :: NotInEnum(v) in r.error <==> c.status == Some(v) && !IsStatus(v)
    ensures r.Success? ==> IsNormalised(r.value) && r.value.id == id
    ensures r.Success? ==> && r.value.name == Trim(c.name.value)
                           && r.value.email == Lower(Trim(c.email.value))
                           && r.value.phone == Trim(c.phone.value)
                           && r.value.service == Trim(c.service.value)
                           && r.value.date == c.date.value
                           && r.value.time == c.time.value
    ensures r.Success? ==> r.value.notes == (if c.notes.None? then "" else Trim(c.notes.value))
    ensures r.Success? ==> r.value.status == (if c.status.None? then Pending else c.status.value)
    ensures r.Success? ==> r.value.createdAt == (if c.createdAt.None? then now else c.createdAt.value)
  {
    var errs := ErrorsOf(c);
    if errs != [] then Failure(errs) else Success(Build(c, id, now))
  }

  /** Completeness is the absence of a missing field, spelled out field by field. */
  lemma CompleteIff(c: Candidate)
    ensures IsComplete(c) <==> forall f :: !IsMissing(c, f)
  {
    if IsComplete(c) {
      forall f ensures !IsMissing(c, f) {
        match f
        case Name => case Email => case Phone => case Service => case Date => case Time =>
      }
    }
    if forall f :: !IsMissing(c, f) {
      assert !IsMissing(c, Name) && !IsMissing(c, Email) && !IsMissing(c, Phone);
      assert !IsMissing(c, Service) && !IsMissing(c, Date) && !IsMissing(c, Time);
    }
  }

  lemma MissingErrorsOfAll(c: Candidate)
    ensures MissingErrors(c, RequiredFields) == [] <==> IsComplete(c)
    ensures forall f :: Required(f) in MissingErrors(c, RequiredFields) <==> IsMissing(c, f)
  {
    var m := MissingErrors(c, RequiredFields);
    AllFieldsRequired();
    forall f ensures Required(f) in m <==> IsMissing(c, f) {
      assert f in RequiredFields;
    }
    CompleteIff(c);
    if m != [] {
      assert Required(m[0].field) in m;
    } else {
      forall f ensures !IsMissing(c, f) {
        assert Required(f) !in m;
      }
    }
  }

  lemma AllFieldsRequired()
    ensures forall f :: f in RequiredFields
  {
    forall f: Field ensures f in RequiredFields {
      match f
      case Name => assert RequiredFields[0] == f;
      case Email => assert RequiredFields[1] == f;
      case Phone => assert RequiredFields[2] == f;
      case Service => assert RequiredFields[3] == f;
      case Date => assert RequiredFields[4] == f;
      case Time => assert RequiredFields[5] == f;
    }
  }

  /** The body that would resubmit a stored record field for field. */
  function AsCandidate(b: Booking): Candidate {
    Candidate(Some(b.name), Some(b.email), Some(b.phone), Some(b.service), Some(b.date),
              Some(b.time), Some(b.notes), Some(b.status), Some(b.createdAt))
  }

  /** A normalised record is a fixed point of normalisation. */
  lemma NormalisedIsFixpoint(b: Booking, now: Timestamp)
    requires IsNormalised(b)
    ensures Normalise(AsCandidate(b), b.id, now) == Success(b)
  {
    var c := AsCandidate(b);
    NormalisedIsComplete(b);
    assert !HasBadStatus(c);
    NormalisedRebuilds(b, now);
  }

  lemma NormalisedIsComplete(b: Booking)
    requires IsNormalised(b)
    ensures IsComplete(AsCandidate(b))
  {
    TrimOfTrimmed(b.name);
    TrimOfTrimmed(b.email);
    TrimOfTrimmed(b.phone);
    TrimOfTrimmed(b.service);
  }

  lemma NormalisedRebuilds(b: Booking, now: Timestamp)
    requires IsNormalised(b) && IsComplete(AsCandidate(b))
    ensures Build(AsCandidate(b), b.id, now) == b
  {
    TrimOfTrimmed(b.name);
    TrimOfTrimmed(b.phone);
    TrimOfTrimmed(b.service);
    TrimOfTrimmed(b.notes);
    EmailFixpoint(b.email);
  }

  /** A stored email passes through the email setters unchanged. */
  lemma EmailFixpoint(e: string)
    requires IsTrimmed(e) && HasNoUpper(e)
    ensures Lower(Trim(e)) == e
  {
    TrimOfTrimmed(e);
    LowerOfLower(e);
  }

  /** Normalising a record the schema produced, whatever the clock says, gives it back unchanged. */
  lemma NormaliseIdempotent(c: Candidate, id: Id, now: Timestamp, later: Timestamp)
    requires Normalise(c, id, now).Success?
    ensures Normalise(AsCandidate(Normalise(c, id, now).value), id, later) == Normalise(c, id, now)
  {
    NormalisedIsFixpoint(Normalise(c, id, now).value, later);
  }

  /** A required trimmed field that holds only whitespace is rejected as missing. */
  lemma BlankFieldRejected(c: Candidate, f: Field, id: Id, now: Timestamp)
    requires f in [Name, Email, Phone, Service]
    requires Supplied(c, f).Some? && AllWhitespace(Supplied(c, f).value)
    ensures Normalise(c, id, now).Failure?
    ensures Required(f) in Normalise(c, id, now).error
  {
    var v := Supplied(c, f).value;
    TrimEmptyIff(v);
    assert IsTrimmedField(f) && Trim(v) == [];
    assert IsMissing(c, f);
    CompleteIff(c);
    assert !IsComplete(c);
  }

  /** `date` is not trimmed: a blank but non-empty value is accepted and stored as supplied. */
  lemma BlankDateAccepted(c: Candidate, id: Id, now: Timestamp)
    requires c.date.Some? && c.date.value != [] && AllWhitespace(c.date.value)
    requires forall f :: f != Date ==> !IsMissing(c, f)
    requires !HasBadStatus(c)
    ensures Normalise(c, id, now).Success?
    ensures Normalise(c, id, now).value.date == c.date.value
  {
    assert !IsMissing(c, Name) && !IsMissing(c, Email) && !IsMissing(c, Phone);
    assert !IsMissing(c, Service) && !IsMissing(c, Time);
  }

  /** `time` is not trimmed either: a blank but non-empty value is accepted and stored as supplied. */
  lemma BlankTimeAccepted(c: Candidate, id: Id, now: Timestamp)
    requires c.time.Some? && c.time.value != [] && AllWhitespace(c.time.value)
    requires forall f :: f != Time ==> !IsMissing(c, f)
    requires !HasBadStatus(c)
    ensures Normalise(c, id, now).Success?
    ensures Normalise(c, id, now).value.time == c.time.value
  {
    assert !IsMissing(c, Name) && !IsMissing(c, Email) && !IsMissing(c, Phone);
    assert !IsMissing(c, Service) && !IsMissing(c, Date);
  }
}
