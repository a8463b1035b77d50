/**
 * The handlers of the backend as functions from a store snapshot and a
 * request to a response and the next snapshot: the role gate, registration,
 * login and appointment booking. Each function follows its handler's checks
 * in the handler's order; the first failing check answers, and the snapshot
 * comes back unchanged.
 */
module Store {
  import opened Records
  import opened Find
  import opened Text
  import opened Validation
  import Conflict

  /** The four collections of the document store and the next fresh ObjectId. */
  datatype Db = Db(
    users: seq<User>,
    doctorProfiles: seq<DoctorProfile>,
    patientProfiles: seq<PatientProfile>,
    appointments: seq<Appointment>,
    nextId: Id)

  /**
   * The library services the handlers call: password hashing and checking,
   * ObjectId parsing (None where `ObjectId(text)` raises) and the ISO 8601
   * parse with its conversion to whole UTC seconds (None where it raises).
   */
  datatype Services = Services(
    hashPassword: string -> string,
    checkPassword: (string, string) -> bool,
    parseId: string -> Option<Id>,
    parseInstant: string -> Option<Instant>)

  // ---------------------------------------------------------------------
  // Store filters (the dicts passed to find_one)
  // ---------------------------------------------------------------------

  function WithId(id: Id): User -> bool {
    (u: User) => u.id == id
  }

  function WithEmail(email: string): User -> bool {
    (u: User) => u.email == email
  }

  function ActiveDoctorWithId(id: Id): User -> bool {
    (u: User) => u.id == id && u.role == "doctor" && u.isActive
  }

  function ProfileOf(id: Id): DoctorProfile -> bool {
    (p: DoctorProfile) => p.userId == id
  }

  function ConflictsWith(doctorId: Id, start: Instant, end: Instant): Appointment -> bool {
    (a: Appointment) => Conflict.Matches(a, doctorId, start, end)
  }

  predicate IsFalse(b: bool) { !b }

  /** The loop over `required_fields`: the first field that is missing or falsy. */
  function FirstMissing(present: seq<bool>): (r: Option<nat>)
    ensures r.Some? ==> r.value < |present| && !present[r.value]
    ensures r.Some? ==> forall j :: 0 <= j < r.value ==> present[j]
    ensures r.None? <==> forall j :: 0 <= j < |present| ==> present[j]
  {
    var r := FindFirst(present, IsFalse);
    assert r.Some? ==> !present[r.value] by { assert r.Some? ==> IsFalse(present[r.value]); }
    r
  }

  // ---------------------------------------------------------------------
  // Role gate
  // ---------------------------------------------------------------------

  /**
   * The body of `role_required`: look the caller up by id; 404 if absent,
   * 403 if the stored role differs from the required one.
   */
  function Authorize(users: seq<User>, callerId: Id, role: string): (r: Result<User>)
    ensures r == Err(UserNotFound) <==> forall i :: 0 <= i < |users| ==> users[i].id != callerId
    ensures r.Ok? ==> r.value in users && r.value.id == callerId && r.value.role == role
    ensures r.Err? && r.failure != UserNotFound ==>
      r.failure == RoleDenied(role) &&
      exists i :: 0 <= i < |users| && users[i].id == callerId && users[i].role != role
  {
    match FindFirst(users, WithId(callerId))
    case None => Err(UserNotFound)
    case Some(i) => if users[i].role != role then Err(RoleDenied(role)) else Ok(users[i])
  }

  ghost predicate UniqueIds(users: seq<User>) {
    forall i, j :: 0 <= i < j < |users| ==> users[i].id != users[j].id
  }

  /**
   * With unique ids the gate decides on the caller's own record: it lets the
   * caller through exactly when that record has the required role, whether
   * or not the account is active.
   */
  lemma AuthorizeByRole(users: seq<User>, i: nat, role: string)
    requires UniqueIds(users) && i < |users|
    ensures Authorize(users, users[i].id, role).Ok? <==> users[i].role == role
    ensures Authorize(users, users[i].id, role).Ok? ==> Authorize(users, users[i].id, role).value == users[i]
  {
    var found := FindFirst(users, WithId(users[i].id));
    assert found.Some? && found.value <= i;
    assert found.value == i;
  }

  // ---------------------------------------------------------------------
  // Registration
  // ---------------------------------------------------------------------

  datatype RegisterRequest = RegisterRequest(
    email: Option<string>,
    password: Option<string>,
    userType: Option<string>,
    firstName: Option<string>,
    lastName: Option<string>,
    phone: Option<string>,
    medicalLicense: Option<string>,
    specialty: Option<string>,
    consultationFee: Option<real>,
    yearsExperience: Option<int>,
    dateOfBirth: Option<string>,
    medicalHistory: Option<string>)

  /** The 201 answer: the new id, the e-mail as sent, and the user type. */
  datatype Registered = Registered(userId: Id, email: string, userType: string)

  const RegisterFields: seq<string> := ["email", "password", "user_type", "first_name", "last_name"]

  function RegisterPresence(req: RegisterRequest): (present: seq<bool>)
    ensures |present| == |RegisterFields|
  {
    [Present(req.email), Present(req.password), Present(req.userType),
     Present(req.firstName), Present(req.lastName)]
  }

  predicate AllRegisterFields(req: RegisterRequest) {
    Present(req.email) && Present(req.password) && Present(req.userType)
    && Present(req.firstName) && Present(req.lastName)
  }

  const DefaultFee: real := 150.0
  const InitialRating: real := 5.0

  /** The user document of app.py:119-130. */
  function NewUser(svc: Services, id: Id, req: RegisterRequest, now: Instant): User
    requires AllRegisterFields(req)
  {
    User(id, ToLower(req.email.value), svc.hashPassword(req.password.value), req.userType.value,
         req.firstName.value, req.lastName.value, req.phone, true, true, now, now, None)
  }

  /** The doctor profile of app.py:137-144. */
  function NewDoctorProfile(id: Id, req: RegisterRequest): DoctorProfile {
    DoctorProfile(id, req.medicalLicense.GetOr(""), req.specialty.GetOr(""),
                  req.consultationFee.GetOr(DefaultFee), InitialRating, req.yearsExperience.GetOr(0))
  }

  /** The patient profile of app.py:147-151. */
  function NewPatientProfile(id: Id, req: RegisterRequest): PatientProfile {
    PatientProfile(id, req.dateOfBirth, req.medicalHistory.GetOr(""))
  }

  /**
   * The store after a successful registration: the new user and one profile
   * of its kind appended, under the next fresh id.
   */
  function Registration(svc: Services, db: Db, req: RegisterRequest, now: Instant): Db
    requires AllRegisterFields(req)
  {
    var id := db.nextId;
    var withUser := db.(users := db.users + [NewUser(svc, id, req, now)], nextId := id + 1);
    if req.userType.value == "doctor" then withUser.(doctorProfiles := db.doctorProfiles + [NewDoctorProfile(id, req)])
    else withUser.(patientProfiles := db.patientProfiles + [NewPatientProfile(id, req)])
  }

  /**
   * The checks of `register` (app.py:80-116), in order: the first that
   * fails, or None when the request may be stored.
   */
  function RegisterRefusal(db: Db, req: RegisterRequest): (refusal: Option<Failure>)
    ensures refusal.None? ==> AllRegisterFields(req)
  {
    match FirstMissing(RegisterPresence(req))
    case Some(k) => Some(MissingField(RegisterFields[k]))
    case None =>
      assert AllRegisterFields(req) by {
        var present := RegisterPresence(req);
        assert present[0] && present[1] && present[2] && present[3] && present[4];
      }
      var email, userType := req.email.value, req.userType.value;
      if !ValidEmail(email) then Some(InvalidEmail)
      else if !ValidPassword(req.password.value) then Some(WeakPassword)
      else if FindFirst(db.users, WithEmail(email)).Some? then Some(EmailRegistered)
      else if userType != "patient" && userType != "doctor" then Some(InvalidUserType)
      else None
  }

  /** `register` (app.py:77-162): the checks, then the writes. */
  function Register(svc: Services, db: Db, req: RegisterRequest, now: Instant): (Result<Registered>, Db) {
    match RegisterRefusal(db, req)
    case Some(f) => (Err(f), db)
    case None => (Ok(Registered(db.nextId, req.email.value, req.userType.value)), Registration(svc, db, req, now))
  }

  // ---------------------------------------------------------------------
  // Login
  // ---------------------------------------------------------------------

  datatype LoginRequest = LoginRequest(email: Option<string>, password: Option<string>)

  /** The 200 answer: a token whose identity is the user id, its lifetime, and the user summary. */
  datatype LoginReply = LoginReply(
    tokenIdentity: Id,
    expiresIn: nat,
    userId: Id,
    email: string,
    userType: string,
    firstName: string,
    lastName: string)

  const TokenLifetime: nat := 3600

  /** `update_one({'_id': id}, {'$set': {'last_login': now}})`. */
  function SetLastLogin(users: seq<User>, id: Id, now: Instant): seq<User> {
    match FindFirst(users, WithId(id))
    case None => users
    case Some(k) => users[k := users[k].(lastLogin := Some(now))]
  }

  /** `login` (app.py:171-216). */
  function Login(svc: Services, db: Db, req: LoginRequest, now: Instant): (Result<LoginReply>, Db) {
    if !Present(req.email) || !Present(req.password) then (Err(CredentialsRequired), db)
    else
      match FindFirst(db.users, WithEmail(ToLower(req.email.value)))
      case None => (Err(BadCredentials), db)
      case Some(i) =>
        var u := db.users[i];
        if !svc.checkPassword(u.passwordHash, req.password.value) then (Err(BadCredentials), db)
        else if !u.isActive then (Err(AccountDeactivated), db)
        else
          (Ok(LoginReply(u.id, TokenLifetime, u.id, u.email, u.role, u.firstName, u.lastName)),
           db.(users := SetLastLogin(db.users, u.id, now)))
  }

  // ---------------------------------------------------------------------
  // Booking
  // ---------------------------------------------------------------------

  datatype BookRequest = BookRequest(
    doctorId: Json,
    appointmentDate: Json,
    duration: Json,
    consultationType: Json,
    symptoms: Option<string>,
    notes: Option<string>)

  /** The 201 answer of app.py:459-473. */
  datatype Confirmation = Confirmation(
    id: Id,
    doctorId: Id,
    patientId: Id,
    doctorName: string,
    start: Instant,
    duration: int,
    consultationType: string,
    status: string,
    consultationFee: real,
    meetingRoom: Id,
    createdAt: Instant)

  const BookFields: seq<string> := ["doctor_id", "appointment_date", "duration", "consultation_type"]

  function BookPresence(req: BookRequest): (present: seq<bool>)
    ensures |present| == |BookFields|
  {
    [Truthy(req.doctorId), Truthy(req.appointmentDate), Truthy(req.duration), Truthy(req.consultationType)]
  }

  const Durations: seq<int> := [15, 30, 45, 60]
  const ConsultationTypes: seq<string> := ["video", "audio", "chat"]

  /** The doctor id as `ObjectId(...)` parses it. */
  function ParsedDoctorId(svc: Services, v: Json): Option<Id> {
    if v.Str? then svc.parseId(v.s) else None
  }

  /** The start instant as the date handling of app.py:369-374 produces it. */
  function ParsedStart(svc: Services, v: Json): Option<Instant> {
    if v.Str? then svc.parseInstant(v.s) else None
  }

  predicate ValidDuration(v: Json) {
    v.Int? && v.n in Durations
  }

  predicate ValidConsultationType(v: Json) {
    v.Str? && v.s in ConsultationTypes
  }

  /** `doctor_profile.get('consultation_fee', 150.0) if doctor_profile else 150.0`. */
  function FeeFor(profiles: seq<DoctorProfile>, doctorId: Id): real {
    match FindFirst(profiles, ProfileOf(doctorId))
    case None => DefaultFee
    case Some(k) => profiles[k].consultationFee
  }

  /** Seconds in one minute: `timedelta(minutes=duration)`. */
  const Minute: int := 60

  /**
   * The appointment document of app.py:430-448. The meeting room's ObjectId
   * is drawn before the insert draws the document's own id.
   */
  function NewAppointment(db: Db, patientId: Id, doctorId: Id, start: Instant, req: BookRequest, now: Instant): Appointment
    requires ValidDuration(req.duration) && ValidConsultationType(req.consultationType)
  {
    Appointment(db.nextId + 1, patientId, doctorId, start, start + req.duration.n * Minute, req.duration.n,
                req.consultationType.s, "confirmed", FeeFor(db.doctorProfiles, doctorId), db.nextId,
                req.symptoms.GetOr(""), req.notes.GetOr(""), now, now)
  }

  /** What the checks of booking establish: the doctor's record and the start instant. */
  datatype Slot = Slot(doctorId: Id, doctor: User, start: Instant)

  /**
   * The first half of the checks of `book_appointment` and its role gate
   * (app.py:55-74, 335-366): who books with whom. The first that fails, or
   * the doctor's id and record.
   */
  function ParticipantChecks(svc: Services, db: Db, callerId: Id, req: BookRequest): Result<(Id, User)> {
    match Authorize(db.users, callerId, "patient")
    case Err(f) => Err(f)
    case Ok(_) =>
      match FirstMissing(BookPresence(req))
      case Some(k) => Err(MissingField(BookFields[k]))
      case None =>
        match ParsedDoctorId(svc, req.doctorId)
        case None => Err(InvalidDoctorId)
        case Some(doctorId) =>
          match FindFirst(db.users, ActiveDoctorWithId(doctorId))
          case None => Err(DoctorNotFound)
          case Some(di) => Ok((doctorId, db.users[di]))
  }

  /**
   * The second half (app.py:368-428): when. The first check on the date,
   * duration, consultation type and schedule that fails, or the slot.
   */
  function ScheduleChecks(svc: Services, db: Db, doctorId: Id, doctor: User, req: BookRequest, now: Instant)
    : (checked: Result<Slot>)
    ensures checked.Ok? ==> ValidDuration(req.duration) && ValidConsultationType(req.consultationType)
  {
    match ParsedStart(svc, req.appointmentDate)
    case None => Err(InvalidDate)
    case Some(start) =>
      if start <= now then Err(PastDate)
      else if !ValidDuration(req.duration) then Err(InvalidDuration)
      else if !ValidConsultationType(req.consultationType) then Err(InvalidConsultationType)
      else if FindFirst(db.appointments, ConflictsWith(doctorId, start, start + req.duration.n * Minute)).Some? then
        Err(SlotUnavailable)
      else Ok(Slot(doctorId, doctor, start))
  }

  /** All the checks of booking, in order: the first that fails, or the slot to book. */
  function BookingChecks(svc: Services, db: Db, callerId: Id, req: BookRequest, now: Instant): (checked: Result<Slot>)
    ensures checked.Ok? ==> ValidDuration(req.duration) && ValidConsultationType(req.consultationType)
  {
    match ParticipantChecks(svc, db, callerId, req)
    case Err(f) => Err(f)
    case Ok((doctorId, doctor)) => ScheduleChecks(svc, db, doctorId, doctor, req, now)
  }

  /** `book_appointment` behind `role_required('patient')`: the checks, then the insert. */
  function Book(svc: Services, db: Db, callerId: Id, req: BookRequest, now: Instant): (Result<Confirmation>, Db) {
    match BookingChecks(svc, db, callerId, req, now)
    case Err(f) => (Err(f), db)
    case Ok(slot) =>
      var appt := NewAppointment(db, callerId, slot.doctorId, slot.start, req, now);
      (Ok(Confirmation(appt.id, slot.doctorId, callerId, "Dr. " + slot.doctor.firstName + " " + slot.doctor.lastName,
                       slot.start, appt.duration, appt.consultationType, appt.status, appt.consultationFee,
                       appt.meetingRoom, now)),
       db.(appointments := db.appointments + [appt], nextId := db.nextId + 2))
  }

  // ---------------------------------------------------------------------
  // The store invariant the handlers keep
  // ---------------------------------------------------------------------

  /** Some user with this id holds this role. */
  ghost predicate HasUser(users: seq<User>, id: Id, role: string) {
    exists i :: 0 <= i < |users| && users[i].id == id && users[i].role == role
  }

  /** Ids are unique and already issued, and e-mails are stored lower-cased. */
  ghost predicate UsersWellFormed(db: Db) {
    && UniqueIds(db.users)
    && forall i :: 0 <= i < |db.users| ==> db.users[i].id < db.nextId && IsLowerCased(db.users[i].email)
  }

  /** Every doctor profile belongs to a doctor, and no doctor has two. */
  ghost predicate DoctorLinks(users: seq<User>, ps: seq<DoctorProfile>) {
    && (forall k :: 0 <= k < |ps| ==> HasUser(users, ps[k].userId, "doctor"))
    && (forall k, l :: 0 <= k < l < |ps| ==> ps[k].userId != ps[l].userId)
  }

  /** Every patient profile belongs to a patient, and no patient has two. */
  ghost predicate PatientLinks(users: seq<User>, ps: seq<PatientProfile>) {
    && (forall k :: 0 <= k < |ps| ==> HasUser(users, ps[k].userId, "patient"))
    && (forall k, l :: 0 <= k < l < |ps| ==> ps[k].userId != ps[l].userId)
  }

  ghost predicate ProfilesLinked(db: Db) {
    DoctorLinks(db.users, db.doctorProfiles) && PatientLinks(db.users, db.patientProfiles)
  }

  /** One appointment as booking creates it. */
  ghost predicate AppointmentWellFormed(db: Db, a: Appointment) {
    && a.id < db.nextId && a.meetingRoom < db.nextId
    && a.duration in Durations && a.end == a.start + a.duration * Minute
    && HasUser(db.users, a.patientId, "patient") && HasUser(db.users, a.doctorId, "doctor")
  }

  /** Appointments are well formed, have distinct ids, and no doctor is double-booked. */
  ghost predicate AppointmentsWellFormed(db: Db) {
    && (forall k :: 0 <= k < |db.appointments| ==> AppointmentWellFormed(db, db.appointments[k]))
    && (forall k, l :: 0 <= k < l < |db.appointments| ==> db.appointments[k].id != db.appointments[l].id)
    && Conflict.NoLiveOverlap(db.appointments)
  }

  ghost predicate Consistent(db: Db) {
    UsersWellFormed(db) && ProfilesLinked(db) && AppointmentsWellFormed(db)
  }

  /** The empty store the service starts from. */
  lemma EmptyIsConsistent()
    ensures Consistent(Db([], [], [], [], 0))
  {
  }
}
