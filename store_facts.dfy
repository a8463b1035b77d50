/**
 * What the handlers guarantee: which request gets which answer, that a
 * refused request writes nothing, what a successful one writes, and that
 * every handler keeps the store invariant `Consistent`.
 */
module StoreFacts {
  import opened Records
  import opened Find
  import opened Text
  import opened Validation
  import Conflict
  import opened Store

  // ---------------------------------------------------------------------
  // Registration
  // ---------------------------------------------------------------------

  /** Every check of registration passes. */
  ghost predicate Admissible(db: Db, req: RegisterRequest) {
    && AllRegisterFields(req)
    && ValidEmail(req.email.value)
    && ValidPassword(req.password.value)
    && (forall i :: 0 <= i < |db.users| ==> db.users[i].email != req.email.value)
    && (req.userType.value == "patient" || req.userType.value == "doctor")
  }

  /**
   * Registration succeeds exactly when every check passes, and then writes
   * exactly the new user and its profile; otherwise it answers with the first
   * failing check and writes nothing.
   */
  lemma RegisterOutcome(svc: Services, db: Db, req: RegisterRequest, now: Instant)
    ensures var (r, after) := Register(svc, db, req, now);
      && (r.Ok? <==> Admissible(db, req))
      && (r.Ok? ==> r.value == Registered(db.nextId, req.email.value, req.userType.value)
                    && after == Registration(svc, db, req, now))
      && (r.Err? ==> after == db)
  {
    var (r, after) := Register(svc, db, req, now);
    if AllRegisterFields(req) {
      var present := RegisterPresence(req);
      assert forall j :: 0 <= j < |present| ==> present[j];
      var dup := FindFirst(db.users, WithEmail(req.email.value));
      assert dup.None? <==> forall i :: 0 <= i < |db.users| ==> db.users[i].email != req.email.value by {
        assert forall i :: 0 <= i < |db.users| ==> (WithEmail(req.email.value)(db.users[i]) <==> db.users[i].email == req.email.value);
      }
    } else {
      var present := RegisterPresence(req);
      assert !(present[0] && present[1] && present[2] && present[3] && present[4]);
    }
  }

  /** Which check answers, in the handler's order. */
  lemma RegisterCheckOrder(svc: Services, db: Db, req: RegisterRequest, now: Instant)
    ensures var r := Register(svc, db, req, now).0;
      && (r.Err? && r.failure.MissingField? <==> !AllRegisterFields(req))
      && (r == Err(InvalidEmail) <==> AllRegisterFields(req) && !ValidEmail(req.email.value))
      && (r == Err(WeakPassword) <==>
            AllRegisterFields(req) && ValidEmail(req.email.value) && !ValidPassword(req.password.value))
      && (r == Err(EmailRegistered) <==>
            AllRegisterFields(req) && ValidEmail(req.email.value) && ValidPassword(req.password.value)
            && exists i :: 0 <= i < |db.users| && db.users[i].email == req.email.value)
      && (r == Err(InvalidUserType) <==>
            AllRegisterFields(req) && ValidEmail(req.email.value) && ValidPassword(req.password.value)
            && (forall i :: 0 <= i < |db.users| ==> db.users[i].email != req.email.value)
            && req.userType.value != "patient" && req.userType.value != "doctor")
  {
    var present := RegisterPresence(req);
    if AllRegisterFields(req) {
      assert forall j :: 0 <= j < |present| ==> present[j];
      var dup := FindFirst(db.users, WithEmail(req.email.value));
      if dup.Some? {
        assert db.users[dup.value].email == req.email.value;
      } else {
        assert forall i :: 0 <= i < |db.users| ==> !WithEmail(req.email.value)(db.users[i]);
      }
    } else {
      assert !(present[0] && present[1] && present[2] && present[3] && present[4]);
    }
  }

  /** A missing-field answer names the first required field that is absent or empty. */
  lemma MissingFieldIsFirst(svc: Services, db: Db, req: RegisterRequest, now: Instant, field: string)
    requires Register(svc, db, req, now).0 == Err(MissingField(field))
    ensures exists k :: 0 <= k < |RegisterFields| && field == RegisterFields[k] &&
              !RegisterPresence(req)[k] && forall j :: 0 <= j < k ==> RegisterPresence(req)[j]
  {
    var k := FirstMissing(RegisterPresence(req)).value;
    assert field == RegisterFields[k];
  }

  /**
   * The duplicate check compares the address as sent, while the store keeps
   * it lower-cased: an address that differs from a stored one only in case
   * passes the check, and the store then holds two users with one e-mail.
   */
  lemma CaseVariantRegistersTwice(svc: Services, db: Db, req: RegisterRequest, now: Instant, i: nat)
    requires Consistent(db)
    requires AllRegisterFields(req) && ValidEmail(req.email.value) && ValidPassword(req.password.value)
    requires req.userType.value == "patient" || req.userType.value == "doctor"
    requires !IsLowerCased(req.email.value)
    requires i < |db.users| && db.users[i].email == ToLower(req.email.value)
    ensures Register(svc, db, req, now).0.Ok?
    ensures var users := Register(svc, db, req, now).1.users;
      i < |db.users| < |users| && users[i].email == users[|db.users|].email
  {
    forall j | 0 <= j < |db.users| ensures db.users[j].email != req.email.value {
      assert IsLowerCased(db.users[j].email);
    }
    RegisterOutcome(svc, db, req, now);
  }

  /** An address stored exactly as sent is refused with 409. */
  lemma ExactDuplicateRefused(svc: Services, db: Db, req: RegisterRequest, now: Instant, i: nat)
    requires AllRegisterFields(req) && ValidEmail(req.email.value) && ValidPassword(req.password.value)
    requires i < |db.users| && db.users[i].email == req.email.value
    ensures Register(svc, db, req, now) == (Err(EmailRegistered), db)
  {
    RegisterCheckOrder(svc, db, req, now);
    RegisterOutcome(svc, db, req, now);
  }

  // ---------------------------------------------------------------------
  // Keeping the invariant
  // ---------------------------------------------------------------------

  /** `after` keeps every user of `before`, in place, with its id and role. */
  ghost predicate KeepsIdentities(before: seq<User>, after: seq<User>) {
    |before| <= |after| &&
    forall i :: 0 <= i < |before| ==> after[i].id == before[i].id && after[i].role == before[i].role
  }

  lemma HasUserKept(before: seq<User>, after: seq<User>, id: Id, role: string)
    requires KeepsIdentities(before, after) && HasUser(before, id, role)
    ensures HasUser(after, id, role)
  {
    var i :| 0 <= i < |before| && before[i].id == id && before[i].role == role;
    assert after[i].id == id && after[i].role == role;
  }

  /**
   * Appointments stay well formed when no appointment changes, no user is
   * lost or changes identity, and the id counter does not go back.
   */
  lemma AppointmentsKept(db: Db, after: Db)
    requires AppointmentsWellFormed(db)
    requires after.appointments == db.appointments && db.nextId <= after.nextId
    requires KeepsIdentities(db.users, after.users)
    ensures AppointmentsWellFormed(after)
  {
    forall k | 0 <= k < |after.appointments| ensures AppointmentWellFormed(after, after.appointments[k]) {
      var a := db.appointments[k];
      assert AppointmentWellFormed(db, a);
      HasUserKept(db.users, after.users, a.patientId, "patient");
      HasUserKept(db.users, after.users, a.doctorId, "doctor");
    }
  }

  lemma DoctorLinksKept(users: seq<User>, after: seq<User>, ps: seq<DoctorProfile>)
    requires DoctorLinks(users, ps) && KeepsIdentities(users, after)
    ensures DoctorLinks(after, ps)
  {
    forall k | 0 <= k < |ps| ensures HasUser(after, ps[k].userId, "doctor") {
      HasUserKept(users, after, ps[k].userId, "doctor");
    }
  }

  lemma PatientLinksKept(users: seq<User>, after: seq<User>, ps: seq<PatientProfile>)
    requires PatientLinks(users, ps) && KeepsIdentities(users, after)
    ensures PatientLinks(after, ps)
  {
    forall k | 0 <= k < |ps| ensures HasUser(after, ps[k].userId, "patient") {
      HasUserKept(users, after, ps[k].userId, "patient");
    }
  }

  /** A new doctor, with an id no stored user has, may bring one profile of its own. */
  lemma DoctorLinksExtended(users: seq<User>, ps: seq<DoctorProfile>, u: User, p: DoctorProfile, newId: Id)
    requires DoctorLinks(users, ps)
    requires forall i :: 0 <= i < |users| ==> users[i].id < newId
    requires u.id == newId && u.role == "doctor" && p.userId == newId
    ensures DoctorLinks(users + [u], ps + [p])
  {
    var users', ps' := users + [u], ps + [p];
    KeepsAfterAppend(users, u);
    DoctorLinksKept(users, users', ps);
    assert users'[|users|] == u;
    forall k | 0 <= k < |ps| ensures ps[k].userId < newId {
      var i :| 0 <= i < |users| && users[i].id == ps[k].userId && users[i].role == "doctor";
    }
    assert forall k :: 0 <= k < |ps| ==> ps'[k] == ps[k];
  }

  /** A new patient, with an id no stored user has, brings one profile of its own. */
  lemma PatientLinksExtended(users: seq<User>, ps: seq<PatientProfile>, u: User, p: PatientProfile, newId: Id)
    requires PatientLinks(users, ps)
    requires forall i :: 0 <= i < |users| ==> users[i].id < newId
    requires u.id == newId && u.role == "patient" && p.userId == newId
    ensures PatientLinks(users + [u], ps + [p])
  {
    var users', ps' := users + [u], ps + [p];
    KeepsAfterAppend(users, u);
    PatientLinksKept(users, users', ps);
    assert users'[|users|] == u;
    forall k | 0 <= k < |ps| ensures ps[k].userId < newId {
      var i :| 0 <= i < |users| && users[i].id == ps[k].userId && users[i].role == "patient";
    }
    assert forall k :: 0 <= k < |ps| ==> ps'[k] == ps[k];
  }

  lemma KeepsAfterAppend(users: seq<User>, u: User)
    ensures KeepsIdentities(users, users + [u])
  {
  }

  /** Storing an admissible registration keeps the store consistent. */
  lemma RegistrationKeepsConsistent(svc: Services, db: Db, req: RegisterRequest, now: Instant)
    requires Consistent(db) && AllRegisterFields(req)
    requires req.userType.value == "patient" || req.userType.value == "doctor"
    ensures Consistent(Registration(svc, db, req, now))
  {
    var id := db.nextId;
    var u := NewUser(svc, id, req, now);
    var after := Registration(svc, db, req, now);
    assert after.users == db.users + [u];
    ToLowerIsLowerCased(req.email.value);
    assert UsersWellFormed(after) by {
      assert forall i :: 0 <= i < |db.users| ==> after.users[i] == db.users[i];
    }
    KeepsAfterAppend(db.users, u);
    if req.userType.value == "doctor" {
      DoctorLinksExtended(db.users, db.doctorProfiles, u, NewDoctorProfile(id, req), id);
      PatientLinksKept(db.users, after.users, db.patientProfiles);
    } else {
      DoctorLinksKept(db.users, after.users, db.doctorProfiles);
      PatientLinksExtended(db.users, db.patientProfiles, u, NewPatientProfile(id, req), id);
    }
    AppointmentsKept(db, after);
  }

  /** Registration keeps the store consistent. */
  lemma RegisterKeepsConsistent(svc: Services, db: Db, req: RegisterRequest, now: Instant)
    requires Consistent(db)
    ensures Consistent(Register(svc, db, req, now).1)
  {
    RegisterOutcome(svc, db, req, now);
    if Register(svc, db, req, now).0.Ok? {
      RegistrationKeepsConsistent(svc, db, req, now);
    }
  }

  // ---------------------------------------------------------------------
  // Login
  // ---------------------------------------------------------------------

  /** `users[i]` is the first user stored under `email`: the one `find_one` returns. */
  ghost predicate FirstWithEmail(users: seq<User>, i: int, email: string) {
    0 <= i < |users| && users[i].email == email &&
    forall j :: 0 <= j < i ==> users[j].email != email
  }

  lemma FindFirstWithEmail(users: seq<User>, email: string)
    ensures FindFirst(users, WithEmail(email)).None? <==> forall j :: 0 <= j < |users| ==> users[j].email != email
    ensures forall i :: FirstWithEmail(users, i, email) ==> FindFirst(users, WithEmail(email)) == Some(i)
  {
    assert forall j :: 0 <= j < |users| ==> (WithEmail(email)(users[j]) <==> users[j].email == email);
    var r := FindFirst(users, WithEmail(email));
    forall i | FirstWithEmail(users, i, email) ensures r == Some(i) {
      assert r.Some? && r.value <= i;
    }
  }

  /**
   * Login's first check: without an e-mail or a password (absent or empty)
   * the answer is 400 and nothing is written; with both, the answer is never 400.
   */
  lemma LoginCheckOrder(svc: Services, db: Db, req: LoginRequest, now: Instant)
    ensures var (r, after) := Login(svc, db, req, now);
      && (r == Err(CredentialsRequired) <==> !Present(req.email) || !Present(req.password))
      && (r == Err(CredentialsRequired) ==> after == db)
  {
  }

  /**
   * Login looks the address up lower-cased and answers for the first user
   * stored under it: 401 when there is none or the password does not check,
   * 403 for a deactivated account only once the password checks, 200 otherwise.
   */
  lemma LoginAnswers(svc: Services, db: Db, req: LoginRequest, now: Instant)
    requires Present(req.email) && Present(req.password)
    ensures var r := Login(svc, db, req, now).0;
      var email := ToLower(req.email.value);
      && ((forall j :: 0 <= j < |db.users| ==> db.users[j].email != email) ==> r == Err(BadCredentials))
      && forall i :: FirstWithEmail(db.users, i, email) ==>
           var u := db.users[i];
           && (r == Err(BadCredentials) <==> !svc.checkPassword(u.passwordHash, req.password.value))
           && (r == Err(AccountDeactivated) <==> svc.checkPassword(u.passwordHash, req.password.value) && !u.isActive)
           && (r.Ok? <==> svc.checkPassword(u.passwordHash, req.password.value) && u.isActive)
           && (r.Ok? ==> r.value == LoginReply(u.id, TokenLifetime, u.id, u.email, u.role, u.firstName, u.lastName))
  {
    FindFirstWithEmail(db.users, ToLower(req.email.value));
  }

  /** Only a successful login writes, and it stamps `last_login` on the caller's record alone. */
  lemma LoginWrites(svc: Services, db: Db, req: LoginRequest, now: Instant)
    requires UsersWellFormed(db)
    ensures var (r, after) := Login(svc, db, req, now);
      && (r.Err? ==> after == db)
      && (r.Ok? ==> exists i :: 0 <= i < |db.users| && db.users[i].id == r.value.userId &&
                      after == db.(users := db.users[i := db.users[i].(lastLogin := Some(now))]))
  {
    var (r, after) := Login(svc, db, req, now);
    if r.Ok? {
      var i := FindFirst(db.users, WithEmail(ToLower(req.email.value))).value;
      var id := db.users[i].id;
      var k := FindFirst(db.users, WithId(id));
      assert k.Some? && k.value <= i;
      assert db.users[k.value].id == id;
      assert k.value == i;
    }
  }

  /** Login keeps the store consistent. */
  lemma LoginKeepsConsistent(svc: Services, db: Db, req: LoginRequest, now: Instant)
    requires Consistent(db)
    ensures Consistent(Login(svc, db, req, now).1)
  {
    LoginWrites(svc, db, req, now);
    var (r, after) := Login(svc, db, req, now);
    if r.Ok? {
      var i :| 0 <= i < |db.users| && db.users[i].id == r.value.userId &&
               after == db.(users := db.users[i := db.users[i].(lastLogin := Some(now))]);
      assert KeepsIdentities(db.users, after.users);
      DoctorLinksKept(db.users, after.users, db.doctorProfiles);
      PatientLinksKept(db.users, after.users, db.patientProfiles);
      AppointmentsKept(db, after);
    }
  }

  /**
   * Round trip: right after registering, logging in with the same address
   * and password reaches the new account, provided the hashing service
   * accepts the hash it produced and no older account is stored under the
   * lower-cased address (a case variant of an earlier address would send
   * the login to that earlier account).
   */
  lemma RegisterThenLogin(svc: Services, db: Db, req: RegisterRequest, now: Instant, later: Instant)
    requires Consistent(db) && Admissible(db, req)
    requires svc.checkPassword(svc.hashPassword(req.password.value), req.password.value)
    requires forall j :: 0 <= j < |db.users| ==> db.users[j].email != ToLower(req.email.value)
    ensures var after := Register(svc, db, req, now).1;
      Login(svc, after, LoginRequest(req.email, req.password), later).0 ==
        Ok(LoginReply(db.nextId, TokenLifetime, db.nextId, ToLower(req.email.value), req.userType.value,
                      req.firstName.value, req.lastName.value))
  {
    RegisterOutcome(svc, db, req, now);
    var after := Register(svc, db, req, now).1;
    var email := ToLower(req.email.value);
    assert after.users == db.users + [NewUser(svc, db.nextId, req, now)];
    assert FirstWithEmail(after.users, |db.users|, email);
    LoginAnswers(svc, after, LoginRequest(req.email, req.password), later);
  }

  // ---------------------------------------------------------------------
  // Booking
  // ---------------------------------------------------------------------

  predicate AllBookFields(req: BookRequest) {
    Truthy(req.doctorId) && Truthy(req.appointmentDate) && Truthy(req.duration) && Truthy(req.consultationType)
  }

  /** Some stored user is an active doctor with this id. */
  ghost predicate HasActiveDoctor(users: seq<User>, doctorId: Id) {
    exists i :: 0 <= i < |users| && users[i].id == doctorId && users[i].role == "doctor" && users[i].isActive
  }

  /**
   * Every check before the conflict query passes: the caller is a patient,
   * the fields are there, the doctor id parses to an active doctor, and the
   * date parses to a future `start`.
   */
  ghost predicate ReachesSchedule(svc: Services, db: Db, callerId: Id, req: BookRequest, now: Instant,
                                  doctorId: Id, start: Instant)
  {
    && Authorize(db.users, callerId, "patient").Ok?
    && AllBookFields(req)
    && ParsedDoctorId(svc, req.doctorId) == Some(doctorId)
    && HasActiveDoctor(db.users, doctorId)
    && ParsedStart(svc, req.appointmentDate) == Some(start)
    && now < start
  }

  /** Some live appointment of the doctor starts before `end`: what the conflict query finds. */
  ghost predicate Blocked(apps: seq<Appointment>, doctorId: Id, end: Instant) {
    exists k :: 0 <= k < |apps| && apps[k].doctorId == doctorId && Conflict.Live(apps[k].status) && apps[k].start < end
  }

  lemma ReachesScheduleUnfolds(svc: Services, db: Db, callerId: Id, req: BookRequest, now: Instant,
                               doctorId: Id, start: Instant)
    requires ReachesSchedule(svc, db, callerId, req, now, doctorId, start)
    ensures FirstMissing(BookPresence(req)).None?
    ensures FindFirst(db.users, ActiveDoctorWithId(doctorId)).Some?
    ensures ParticipantChecks(svc, db, callerId, req).Ok?
    ensures ParticipantChecks(svc, db, callerId, req).value.0 == doctorId
  {
    var i :| 0 <= i < |db.users| && db.users[i].id == doctorId && db.users[i].role == "doctor" && db.users[i].isActive;
    assert ActiveDoctorWithId(doctorId)(db.users[i]);
  }

  /** The conflict query, over the whole collection, finds exactly a blocking appointment. */
  lemma ConflictFound(apps: seq<Appointment>, doctorId: Id, start: Instant, end: Instant)
    requires start < end
    ensures FindFirst(apps, ConflictsWith(doctorId, start, end)).Some? <==> Blocked(apps, doctorId, end)
  {
    forall k | 0 <= k < |apps|
      ensures ConflictsWith(doctorId, start, end)(apps[k]) <==>
        apps[k].doctorId == doctorId && Conflict.Live(apps[k].status) && apps[k].start < end
    {
      Conflict.QueryReduces(apps[k], doctorId, start, end);
    }
  }

  /**
   * Once every earlier check passes, a valid duration and consultation type
   * book the slot unless some live appointment of the doctor starts before
   * the proposed end; a booking appends one confirmed appointment and draws
   * two fresh ids, a refusal writes nothing.
   */
  lemma BookOutcome(svc: Services, db: Db, callerId: Id, req: BookRequest, now: Instant,
                    doctorId: Id, start: Instant)
    requires ReachesSchedule(svc, db, callerId, req, now, doctorId, start)
    requires ValidDuration(req.duration) && ValidConsultationType(req.consultationType)
    ensures var (r, after) := Book(svc, db, callerId, req, now);
      var end := start + req.duration.n * Minute;
      && (r == Err(SlotUnavailable) <==> Blocked(db.appointments, doctorId, end))
      && (r.Ok? <==> !Blocked(db.appointments, doctorId, end))
      && (r.Err? ==> after == db)
      && (r.Ok? ==> after == db.(appointments := db.appointments + [NewAppointment(db, callerId, doctorId, start, req, now)],
                                 nextId := db.nextId + 2))
  {
    ReachesScheduleUnfolds(svc, db, callerId, req, now, doctorId, start);
    var doctor := ParticipantChecks(svc, db, callerId, req).value.1;
    ScheduleOutcome(svc, db, doctorId, doctor, req, now, start);
    assert BookingChecks(svc, db, callerId, req, now) == ScheduleChecks(svc, db, doctorId, doctor, req, now);
  }

  /** Past the date checks, the schedule check refuses exactly a blocked slot. */
  lemma ScheduleOutcome(svc: Services, db: Db, doctorId: Id, doctor: User, req: BookRequest, now: Instant,
                        start: Instant)
    requires ParsedStart(svc, req.appointmentDate) == Some(start) && now < start
    requires ValidDuration(req.duration) && ValidConsultationType(req.consultationType)
    ensures ScheduleChecks(svc, db, doctorId, doctor, req, now)
         == if Blocked(db.appointments, doctorId, start + req.duration.n * Minute) then Err(SlotUnavailable)
            else Ok(Slot(doctorId, doctor, start))
  {
    ConflictFound(db.appointments, doctorId, start, start + req.duration.n * Minute);
  }

  /** The participant checks, in the handler's order: role gate, fields, doctor id, doctor lookup. */
  lemma ParticipantCheckOrder(svc: Services, db: Db, callerId: Id, req: BookRequest)
    ensures var r := ParticipantChecks(svc, db, callerId, req);
      var gate := Authorize(db.users, callerId, "patient");
      var doctorId := ParsedDoctorId(svc, req.doctorId);
      && (gate.Err? ==> r == Err(gate.failure))
      && (r.Err? && r.failure.MissingField? <==> gate.Ok? && !AllBookFields(req))
      && (r == Err(InvalidDoctorId) <==> gate.Ok? && AllBookFields(req) && doctorId.None?)
      && (r == Err(DoctorNotFound) <==>
            gate.Ok? && AllBookFields(req) && doctorId.Some? && !HasActiveDoctor(db.users, doctorId.value))
      && (r.Ok? <==> gate.Ok? && AllBookFields(req) && doctorId.Some? && HasActiveDoctor(db.users, doctorId.value))
      && (r.Ok? ==> r.value.0 == doctorId.value)
  {
    var present := BookPresence(req);
    if FirstMissing(present).None? {
      assert present[0] && present[1] && present[2] && present[3];
    } else {
      assert !(present[0] && present[1] && present[2] && present[3]);
    }
    var doctorId := ParsedDoctorId(svc, req.doctorId);
    if doctorId.Some? {
      var d := doctorId.value;
      if HasActiveDoctor(db.users, d) {
        var i :| 0 <= i < |db.users| && db.users[i].id == d && db.users[i].role == "doctor" && db.users[i].isActive;
        assert ActiveDoctorWithId(d)(db.users[i]);
      } else {
        assert forall j :: 0 <= j < |db.users| ==> !ActiveDoctorWithId(d)(db.users[j]);
      }
    }
  }

  /** The schedule checks before the conflict query, in the handler's order: date, future, duration, type. */
  lemma ScheduleCheckOrder(svc: Services, db: Db, doctorId: Id, doctor: User, req: BookRequest, now: Instant)
    ensures var r := ScheduleChecks(svc, db, doctorId, doctor, req, now);
      var start := ParsedStart(svc, req.appointmentDate);
      && (r == Err(InvalidDate) <==> start.None?)
      && (r == Err(PastDate) <==> start.Some? && start.value <= now)
      && (r == Err(InvalidDuration) <==> start.Some? && now < start.value && !ValidDuration(req.duration))
      && (r == Err(InvalidConsultationType) <==>
            start.Some? && now < start.value && ValidDuration(req.duration) && !ValidConsultationType(req.consultationType))
  {
  }

  /**
   * Which refusal booking answers, in the handler's order: the role gate's,
   * then a missing field, a bad doctor id, no such active doctor (404), a bad
   * date, a date not in the future, a bad duration, a bad consultation type;
   * each only when every earlier check passes.
   */
  lemma BookCheckOrder(svc: Services, db: Db, callerId: Id, req: BookRequest, now: Instant)
    ensures var r := Book(svc, db, callerId, req, now).0;
      var gate := Authorize(db.users, callerId, "patient");
      var doctorId := ParsedDoctorId(svc, req.doctorId);
      var start := ParsedStart(svc, req.appointmentDate);
      var found := gate.Ok? && AllBookFields(req) && doctorId.Some? && HasActiveDoctor(db.users, doctorId.value);
      && (gate.Err? ==> r == Err(gate.failure))
      && (r.Err? && r.failure.MissingField? <==> gate.Ok? && !AllBookFields(req))
      && (r == Err(InvalidDoctorId) <==> gate.Ok? && AllBookFields(req) && doctorId.None?)
      && (r == Err(DoctorNotFound) <==>
            gate.Ok? && AllBookFields(req) && doctorId.Some? && !HasActiveDoctor(db.users, doctorId.value))
      && (r == Err(InvalidDate) <==> found && start.None?)
      && (r == Err(PastDate) <==> found && start.Some? && start.value <= now)
      && (r == Err(InvalidDuration) <==> found && start.Some? && now < start.value && !ValidDuration(req.duration))
      && (r == Err(InvalidConsultationType) <==>
            found && start.Some? && now < start.value && ValidDuration(req.duration)
            && !ValidConsultationType(req.consultationType))
  {
    ParticipantCheckOrder(svc, db, callerId, req);
    var participants := ParticipantChecks(svc, db, callerId, req);
    if participants.Ok? {
      var (doctorId, doctor) := participants.value;
      ScheduleCheckOrder(svc, db, doctorId, doctor, req, now);
      assert BookingChecks(svc, db, callerId, req, now) == ScheduleChecks(svc, db, doctorId, doctor, req, now);
    }
  }

  /** A booking's missing-field answer names the first required field that is absent or falsy. */
  lemma BookMissingFieldIsFirst(svc: Services, db: Db, callerId: Id, req: BookRequest, now: Instant, field: string)
    requires Book(svc, db, callerId, req, now).0 == Err(MissingField(field))
    ensures exists k :: 0 <= k < |BookFields| && field == BookFields[k] &&
              !BookPresence(req)[k] && forall j :: 0 <= j < k ==> BookPresence(req)[j]
  {
    var k := FirstMissing(BookPresence(req)).value;
    assert field == BookFields[k];
  }

  /** A refused booking writes nothing. */
  lemma BookFailureWritesNothing(svc: Services, db: Db, callerId: Id, req: BookRequest, now: Instant)
    ensures Book(svc, db, callerId, req, now).0.Err? ==> Book(svc, db, callerId, req, now).1 == db
  {
  }

  /**
   * A date that is not in the future is refused before the duration, the
   * consultation type or the schedule are looked at.
   */
  lemma PastDateRefused(svc: Services, db: Db, callerId: Id, req: BookRequest, now: Instant,
                        doctorId: Id, start: Instant)
    requires Authorize(db.users, callerId, "patient").Ok? && AllBookFields(req)
    requires ParsedDoctorId(svc, req.doctorId) == Some(doctorId) && HasActiveDoctor(db.users, doctorId)
    requires ParsedStart(svc, req.appointmentDate) == Some(start) && start <= now
    ensures Book(svc, db, callerId, req, now) == (Err(PastDate), db)
  {
    var i :| 0 <= i < |db.users| && db.users[i].id == doctorId && db.users[i].role == "doctor" && db.users[i].isActive;
    assert ActiveDoctorWithId(doctorId)(db.users[i]);
  }

  /**
   * After a booking, no request for the same doctor whose slot ends after
   * the booked start can be booked: the query refuses every such slot, the
   * same slot booked again and every later one included.
   */
  lemma BookedSlotBlocksLaterSlots(svc: Services, db: Db, callerId: Id, req: BookRequest, now: Instant,
                                   doctorId: Id, start: Instant,
                                   callerId2: Id, req2: BookRequest, now2: Instant, start2: Instant)
    requires ReachesSchedule(svc, db, callerId, req, now, doctorId, start)
    requires Book(svc, db, callerId, req, now).0.Ok?
    requires ReachesSchedule(svc, Book(svc, db, callerId, req, now).1, callerId2, req2, now2, doctorId, start2)
    requires ValidDuration(req2.duration) && ValidConsultationType(req2.consultationType)
    requires start < start2 + req2.duration.n * Minute
    ensures Book(svc, Book(svc, db, callerId, req, now).1, callerId2, req2, now2).0 == Err(SlotUnavailable)
  {
    BookOutcome(svc, db, callerId, req, now, doctorId, start);
    var after := Book(svc, db, callerId, req, now).1;
    assert ValidDuration(req.duration) && ValidConsultationType(req.consultationType);
    var a := NewAppointment(db, callerId, doctorId, start, req, now);
    assert after.appointments[|db.appointments|] == a;
    assert Blocked(after.appointments, doctorId, start2 + req2.duration.n * Minute);
    BookOutcome(svc, after, callerId2, req2, now2, doctorId, start2);
  }

  /** A booking that succeeded passed every check, for the doctor and start it confirms. */
  lemma BookedPassedEveryCheck(svc: Services, db: Db, callerId: Id, req: BookRequest, now: Instant)
    requires Book(svc, db, callerId, req, now).0.Ok?
    ensures var c := Book(svc, db, callerId, req, now).0.value;
      && ReachesSchedule(svc, db, callerId, req, now, c.doctorId, c.start)
      && ValidDuration(req.duration) && ValidConsultationType(req.consultationType)
      && c.patientId == callerId
  {
    var c := Book(svc, db, callerId, req, now).0.value;
    var di := FindFirst(db.users, ActiveDoctorWithId(c.doctorId)).value;
    assert ActiveDoctorWithId(c.doctorId)(db.users[di]);
    var present := BookPresence(req);
    assert present[0] && present[1] && present[2] && present[3];
  }

  /** The same request, sent twice, is refused the second time. */
  lemma BookTwiceRefused(svc: Services, db: Db, callerId: Id, req: BookRequest, now: Instant)
    requires Book(svc, db, callerId, req, now).0.Ok?
    ensures var after := Book(svc, db, callerId, req, now).1;
      Book(svc, after, callerId, req, now) == (Err(SlotUnavailable), after)
  {
    var r := Book(svc, db, callerId, req, now).0;
    var doctorId, start := r.value.doctorId, r.value.start;
    BookedPassedEveryCheck(svc, db, callerId, req, now);
    BookedSlotBlocksLaterSlots(svc, db, callerId, req, now, doctorId, start, callerId, req, now, start);
    BookOutcome(svc, Book(svc, db, callerId, req, now).1, callerId, req, now, doctorId, start);
  }

  /**
   * Appending an appointment with the two next fresh ids, between existing
   * users of the right roles, that the conflict query flags against nothing,
   * keeps the store consistent.
   */
  lemma InsertKeepsConsistent(db: Db, a: Appointment)
    requires Consistent(db)
    requires a.id == db.nextId + 1 && a.meetingRoom == db.nextId
    requires a.duration in Durations && a.end == a.start + a.duration * Minute
    requires HasUser(db.users, a.patientId, "patient") && HasUser(db.users, a.doctorId, "doctor")
    requires forall k :: 0 <= k < |db.appointments| ==> !Conflict.Matches(db.appointments[k], a.doctorId, a.start, a.end)
    ensures Consistent(db.(appointments := db.appointments + [a], nextId := db.nextId + 2))
  {
    var after := db.(appointments := db.appointments + [a], nextId := db.nextId + 2);
    var apps := db.appointments;
    forall k | 0 <= k < |after.appointments|
      ensures AppointmentWellFormed(after, after.appointments[k])
      ensures k < |apps| ==> after.appointments[k].id < db.nextId
    {
      if k < |apps| {
        assert after.appointments[k] == apps[k] && AppointmentWellFormed(db, apps[k]);
      }
    }
    Conflict.UnflaggedInsertKeepsNoOverlap(apps, a);
  }

  /** Booking keeps the store consistent; in particular no doctor becomes double-booked. */
  lemma BookKeepsConsistent(svc: Services, db: Db, callerId: Id, req: BookRequest, now: Instant)
    requires Consistent(db)
    ensures Consistent(Book(svc, db, callerId, req, now).1)
  {
    if Book(svc, db, callerId, req, now).0.Ok? {
      BookedPassedEveryCheck(svc, db, callerId, req, now);
      var c := Book(svc, db, callerId, req, now).0.value;
      BookOutcome(svc, db, callerId, req, now, c.doctorId, c.start);
      var a := NewAppointment(db, callerId, c.doctorId, c.start, req, now);
      assert HasUser(db.users, callerId, "patient") by {
        var caller := Authorize(db.users, callerId, "patient").value;
        var i :| 0 <= i < |db.users| && db.users[i] == caller;
      }
      assert !Blocked(db.appointments, c.doctorId, a.end);
      forall k | 0 <= k < |db.appointments| ensures !Conflict.Matches(db.appointments[k], c.doctorId, a.start, a.end) {
        Conflict.QueryReduces(db.appointments[k], c.doctorId, a.start, a.end);
      }
      InsertKeepsConsistent(db, a);
    }
  }
}
