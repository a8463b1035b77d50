/**
 * The records the telehealth backend keeps in its document store (users,
 * doctor and patient profiles, appointments), the shape of request fields
 * as they arrive in a JSON body, and the error responses of the handlers.
 */
module Records {

  datatype Option<T> = None | Some(value: T) {
    function GetOr(default: T): T {
      match this
      case Some(v) => v
      case None => default
    }
  }

  /** A handler's result: its success payload, or the error it answers with. */
  datatype Result<T> = Ok(value: T) | Err(failure: Failure)

  /** Document identifiers (ObjectIds), drawn from a counter in the store. */
  type Id = nat

  /** Instants are whole seconds since an arbitrary epoch. */
  type Instant = int

  /** A JSON value of a request body, as far as the handlers look at it. */
  datatype Json = Missing | Str(s: string) | Int(n: int)

  /** Python truthiness of a request value: `not data[field]` rejects it. */
  predicate Truthy(v: Json) {
    match v
    case Missing => false
    case Str(s) => s != ""
    case Int(n) => n != 0
  }

  /** Truthiness of an optional text value (absent, None or "" are falsy). */
  predicate Present(v: Option<string>) {
    v.Some? && v.value != ""
  }

  datatype User = User(
    id: Id,
    email: string,
    passwordHash: string,
    role: string,
    firstName: string,
    lastName: string,
    phone: Option<string>,
    isVerified: bool,
    isActive: bool,
    createdAt: Instant,
    updatedAt: Instant,
    lastLogin: Option<Instant>)

  datatype DoctorProfile = DoctorProfile(
    userId: Id,
    medicalLicense: string,
    specialty: string,
    consultationFee: real,
    rating: real,
    yearsExperience: int)

  datatype PatientProfile = PatientProfile(
    userId: Id,
    dateOfBirth: Option<string>,
    medicalHistory: string)

  /** A booking. `meetingRoom` is the fresh id the meeting link ends with. */
  datatype Appointment = Appointment(
    id: Id,
    patientId: Id,
    doctorId: Id,
    start: Instant,
    end: Instant,
    duration: int,
    consultationType: string,
    status: string,
    consultationFee: real,
    meetingRoom: Id,
    symptoms: string,
    patientNotes: string,
    createdAt: Instant,
    updatedAt: Instant)

  /** Every error answer of the modelled handlers, one per message. */
  datatype Failure =
    | MissingField(field: string)
    | InvalidEmail
    | WeakPassword
    | EmailRegistered
    | InvalidUserType
    | CredentialsRequired
    | BadCredentials
    | AccountDeactivated
    | UserNotFound
    | RoleDenied(required: string)
    | InvalidPageParameter
    | InvalidPagination
    | InvalidDoctorId
    | DoctorNotFound
    | InvalidDate
    | PastDate
    | InvalidDuration
    | InvalidConsultationType
    | SlotUnavailable

  /** The HTTP status each error is answered with. */
  function StatusCode(f: Failure): (code: nat)
    ensures 400 <= code < 500
  {
    match f
    case EmailRegistered => 409
    case SlotUnavailable => 409
    case BadCredentials => 401
    case AccountDeactivated => 403
    case RoleDenied(_) => 403
    case UserNotFound => 404
    case DoctorNotFound => 404
    case _ => 400
  }
}

/** The store's `find_one`: the first record, in store order, that a filter accepts. */
module Find {
  import opened Records

  function FindFirst<T>(s: seq<T>, accepts: T -> bool): (r: Option<nat>)
    ensures r.Some? ==> r.value < |s| && accepts(s[r.value])
    ensures r.Some? ==> forall j :: 0 <= j < r.value ==> !accepts(s[j])
    ensures r.None? <==> forall j :: 0 <= j < |s| ==> !accepts(s[j])
  {
    if s == [] then None
    else if accepts(s[0]) then Some(0)
    else
      match FindFirst(s[1..], accepts)
      case None => assert forall j :: 1 <= j < |s| ==> s[j] == s[1..][j - 1]; None
      case Some(k) => assert forall j :: 1 <= j < k + 1 ==> s[j] == s[1..][j - 1]; Some(k + 1)
  }
}
