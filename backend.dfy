/**
 * The backend as the running service sees it: one object that owns the four
 * collections and the ObjectId counter, and whose handler methods read and
 * update them step by step. Each handler is proved to answer and to write
 * exactly what the corresponding function of `Store` says, and to keep the
 * store `Consistent`.
 */
module Backend {
  import opened Records
  import opened Find
  import opened Text
  import opened Validation
  import opened Store
  import StoreFacts
  import Directory

  /** `find_one`: scan the collection in store order for the first accepted record. */
  method FindOne<T>(records: seq<T>, accepts: T -> bool) returns (found: Option<nat>)
    ensures found == FindFirst(records, accepts)
  {
    var i := 0;
    while i < |records|
      invariant 0 <= i <= |records|
      invariant forall j :: 0 <= j < i ==> !accepts(records[j])
    {
      if accepts(records[i]) {
        var spec := FindFirst(records, accepts);
        assert spec.Some? && spec.value <= i;
        return Some(i);
      }
      i := i + 1;
    }
    return None;
  }

  /** The loop over `required_fields`: the first one that is missing or falsy. */
  method FirstMissingField(present: seq<bool>) returns (missing: Option<nat>)
    ensures missing == FirstMissing(present)
  {
    for i := 0 to |present|
      invariant forall j :: 0 <= j < i ==> present[j]
    {
      if !present[i] {
        var spec := FirstMissing(present);
        assert spec.Some? && spec.value <= i;
        return Some(i);
      }
    }
    return None;
  }

  /** A `page` or `limit` query argument: absent, an integer, or text that `int()` refuses. */
  datatype PageArg = Absent | Number(n: int) | NotANumber

  /** `int(request.args.get(name, default))`, with None where it raises. */
  function ArgValue(arg: PageArg, default: int): Option<int> {
    match arg
    case Absent => Some(default)
    case Number(n) => Some(n)
    case NotANumber => None
  }

  const DefaultPage: int := 1
  const DefaultLimit: int := 10
  const MaxLimit: int := 50

  datatype Pagination = Pagination(currentPage: int, totalPages: nat, totalDoctors: nat, hasNext: bool)

  datatype DoctorPage = DoctorPage(doctors: seq<Directory.DoctorSummary>, pagination: Pagination)

  class Service {
    const services: Services
    var users: seq<User>
    var doctorProfiles: seq<DoctorProfile>
    var patientProfiles: seq<PatientProfile>
    var appointments: seq<Appointment>
    var nextId: Id

    /** The collections as one store snapshot. */
    function State(): Db
      reads this
    {
      Db(users, doctorProfiles, patientProfiles, appointments, nextId)
    }

    ghost predicate Valid()
      reads this
    {
      Consistent(State())
    }

    constructor(services: Services)
      ensures Valid()
      ensures this.services == services && State() == Db([], [], [], [], 0)
    {
      this.services := services;
      users, doctorProfiles, patientProfiles, appointments := [], [], [], [];
      nextId := 0;
      EmptyIsConsistent();
    }

    /** `ObjectId()`: a fresh id from the counter. */
    method NewId() returns (id: Id)
      modifies this
      ensures id == old(nextId) && nextId == old(nextId) + 1
      ensures users == old(users) && doctorProfiles == old(doctorProfiles)
      ensures patientProfiles == old(patientProfiles) && appointments == old(appointments)
    {
      id := nextId;
      nextId := nextId + 1;
    }

    /** The lookup and role check of `role_required`. */
    method RequireRole(callerId: Id, role: string) returns (r: Result<User>)
      ensures r == Authorize(users, callerId, role)
    {
      var found := FindOne(users, WithId(callerId));
      if found.None? {
        return Err(UserNotFound);
      }
      var user := users[found.value];
      if user.role != role {
        return Err(RoleDenied(role));
      }
      return Ok(user);
    }

    /** The checks of `register`, in the handler's order. */
    method CheckRegistration(req: RegisterRequest) returns (refusal: Option<Failure>)
      ensures refusal == RegisterRefusal(State(), req)
    {
      var missing := FirstMissingField(RegisterPresence(req));
      if missing.Some? {
        return Some(MissingField(RegisterFields[missing.value]));
      }
      assert AllRegisterFields(req) by {
        var present := RegisterPresence(req);
        assert present[0] && present[1] && present[2] && present[3] && present[4];
      }
      var email, userType := req.email.value, req.userType.value;
      if !ValidEmail(email) {
        return Some(InvalidEmail);
      }
      if !ValidPassword(req.password.value) {
        return Some(WeakPassword);
      }
      var existing := FindOne(users, WithEmail(email));
      if existing.Some? {
        return Some(EmailRegistered);
      }
      if userType != "patient" && userType != "doctor" {
        return Some(InvalidUserType);
      }
      return None;
    }

    /** The writes of `register`: the user document under a fresh id, then its profile. */
    method AddAccount(req: RegisterRequest, now: Instant) returns (id: Id)
      requires AllRegisterFields(req)
      modifies this
      ensures id == old(nextId)
      ensures State() == Registration(services, old(State()), req, now)
    {
      id := NewId();
      users := users + [NewUser(services, id, req, now)];
      if req.userType.value == "doctor" {
        doctorProfiles := doctorProfiles + [NewDoctorProfile(id, req)];
      } else {
        patientProfiles := patientProfiles + [NewPatientProfile(id, req)];
      }
    }

    /** `register` (app.py:77-162). */
    method Register(req: RegisterRequest, now: Instant) returns (r: Result<Registered>)
      requires Valid()
      modifies this
      ensures Valid()
      ensures (r, State()) == Store.Register(services, old(State()), req, now)
    {
      var refusal := CheckRegistration(req);
      if refusal.Some? {
        return Err(refusal.value);
      }
      ghost var before := State();
      var id := AddAccount(req, now);
      r := Ok(Registered(id, req.email.value, req.userType.value));
      StoreFacts.RegisterKeepsConsistent(services, before, req, now);
    }

    /** `login` (app.py:171-216). */
    method Login(req: LoginRequest, now: Instant) returns (r: Result<LoginReply>)
      requires Valid()
      modifies this
      ensures Valid()
      ensures (r, State()) == Store.Login(services, old(State()), req, now)
    {
      if !Present(req.email) || !Present(req.password) {
        return Err(CredentialsRequired);
      }
      var found := FindOne(users, WithEmail(ToLower(req.email.value)));
      if found.None? {
        return Err(BadCredentials);
      }
      var user := users[found.value];
      if !services.checkPassword(user.passwordHash, req.password.value) {
        return Err(BadCredentials);
      }
      if !user.isActive {
        return Err(AccountDeactivated);
      }
      ghost var before := State();
      var target := FindOne(users, WithId(user.id));
      if target.Some? {
        users := users[target.value := users[target.value].(lastLogin := Some(now))];
      }
      r := Ok(LoginReply(user.id, TokenLifetime, user.id, user.email, user.role, user.firstName, user.lastName));
      StoreFacts.LoginKeepsConsistent(services, before, req, now);
    }

    /** The role gate and the first checks of `book_appointment`: who books with whom. */
    method CheckParticipants(callerId: Id, req: BookRequest) returns (checked: Result<(Id, User)>)
      ensures checked == ParticipantChecks(services, State(), callerId, req)
    {
      var gate := RequireRole(callerId, "patient");
      if gate.Err? {
        return Err(gate.failure);
      }
      var missing := FirstMissingField(BookPresence(req));
      if missing.Some? {
        return Err(MissingField(BookFields[missing.value]));
      }
      var parsedId := ParsedDoctorId(services, req.doctorId);
      if parsedId.None? {
        return Err(InvalidDoctorId);
      }
      var doctorId := parsedId.value;
      var doctorAt := FindOne(users, ActiveDoctorWithId(doctorId));
      if doctorAt.None? {
        return Err(DoctorNotFound);
      }
      return Ok((doctorId, users[doctorAt.value]));
    }

    /** The remaining checks of `book_appointment`: the date, duration, type and the conflict query. */
    method CheckSchedule(doctorId: Id, doctor: User, req: BookRequest, now: Instant) returns (checked: Result<Slot>)
      ensures checked == ScheduleChecks(services, State(), doctorId, doctor, req, now)
    {
      var parsedStart := ParsedStart(services, req.appointmentDate);
      if parsedStart.None? {
        return Err(InvalidDate);
      }
      var start := parsedStart.value;
      if start <= now {
        return Err(PastDate);
      }
      if !ValidDuration(req.duration) {
        return Err(InvalidDuration);
      }
      if !ValidConsultationType(req.consultationType) {
        return Err(InvalidConsultationType);
      }
      var end := start + req.duration.n * Minute;
      var conflict := FindOne(appointments, ConflictsWith(doctorId, start, end));
      if conflict.Some? {
        return Err(SlotUnavailable);
      }
      return Ok(Slot(doctorId, doctor, start));
    }

    /**
     * The writes of `book_appointment`: the fee from the doctor's profile, a
     * fresh id for the meeting room, then the document under its own fresh id.
     */
    method AddAppointment(callerId: Id, slot: Slot, req: BookRequest, now: Instant) returns (appointment: Appointment)
      requires ValidDuration(req.duration) && ValidConsultationType(req.consultationType)
      modifies this
      ensures appointment == NewAppointment(old(State()), callerId, slot.doctorId, slot.start, req, now)
      ensures State() == old(State()).(appointments := old(appointments) + [appointment], nextId := old(nextId) + 2)
    {
      var profileAt := FindOne(doctorProfiles, ProfileOf(slot.doctorId));
      var fee := if profileAt.Some? then doctorProfiles[profileAt.value].consultationFee else DefaultFee;
      var room := NewId();
      var id := NewId();
      appointment := Appointment(id, callerId, slot.doctorId, slot.start, slot.start + req.duration.n * Minute,
                                 req.duration.n, req.consultationType.s, "confirmed", fee, room,
                                 req.symptoms.GetOr(""), req.notes.GetOr(""), now, now);
      appointments := appointments + [appointment];
    }

    /** The steps of `book_appointment` behind `role_required('patient')`: the checks, then the insert. */
    method ProcessBooking(callerId: Id, req: BookRequest, now: Instant) returns (r: Result<Confirmation>)
      modifies this
      ensures (r, State()) == Book(services, old(State()), callerId, req, now)
    {
      var participants := CheckParticipants(callerId, req);
      if participants.Err? {
        return Err(participants.failure);
      }
      var checked := CheckSchedule(participants.value.0, participants.value.1, req, now);
      if checked.Err? {
        return Err(checked.failure);
      }
      var slot := checked.value;
      var appointment := AddAppointment(callerId, slot, req, now);
      r := Ok(Confirmation(appointment.id, slot.doctorId, callerId,
                           "Dr. " + slot.doctor.firstName + " " + slot.doctor.lastName,
                           slot.start, appointment.duration, appointment.consultationType, appointment.status,
                           appointment.consultationFee, appointment.meetingRoom, now));
    }

    /** `book_appointment` (app.py:55-74, 331-475), which keeps the store consistent. */
    method BookAppointment(callerId: Id, req: BookRequest, now: Instant) returns (r: Result<Confirmation>)
      requires Valid()
      modifies this
      ensures Valid()
      ensures (r, State()) == Book(services, old(State()), callerId, req, now)
    {
      ghost var before := State();
      r := ProcessBooking(callerId, req, now);
      StoreFacts.BookKeepsConsistent(services, before, callerId, req, now);
    }

    /**
     * `get_available_doctors` (app.py:225-329): read the arguments, validate
     * the pagination, build and run the pipeline, then run it again with
     * `$count` in place of `$skip` and `$limit` for the total.
     */
    method ListDoctors(specialty: Option<string>, location: Option<string>, pageArg: PageArg, limitArg: PageArg)
      returns (r: Result<DoctorPage>)
      ensures (pageArg.NotANumber? || limitArg.NotANumber?) <==> r == Err(InvalidPageParameter)
      ensures var page, limit := ArgValue(pageArg, DefaultPage), ArgValue(limitArg, DefaultLimit);
        page.Some? && limit.Some? ==>
          && (r == Err(InvalidPagination) <==> !(1 <= page.value && 1 <= limit.value <= MaxLimit))
          && (r.Ok? <==> 1 <= page.value && 1 <= limit.value <= MaxLimit)
          && (r.Ok? ==>
                var listing := Directory.Listing(users, doctorProfiles, specialty);
                && r.value.doctors == Directory.PageOf(listing, page.value, limit.value)
                && r.value.pagination.currentPage == page.value
                && r.value.pagination.totalDoctors == |listing|
                && r.value.pagination.totalPages == Directory.TotalPages(|listing|, limit.value)
                && (r.value.pagination.hasNext <==> page.value * limit.value < |listing|))
    {
      var pageValue, limitValue := ArgValue(pageArg, DefaultPage), ArgValue(limitArg, DefaultLimit);
      if pageValue.None? || limitValue.None? {
        return Err(InvalidPageParameter);
      }
      var page, limit := pageValue.value, limitValue.value;
      if page < 1 || limit < 1 || limit > MaxLimit {
        return Err(InvalidPagination);
      }
      var pipeline := Directory.BuildPipeline(specialty, location, page, limit);
      var doctors := Directory.SummariesOf(Directory.Run(pipeline, doctorProfiles, Directory.UserDocs(users)));
      var countPipeline := pipeline[..|pipeline| - 2] + [Directory.Count];
      var total := Directory.TotalOf(Directory.Run(countPipeline, doctorProfiles, Directory.UserDocs(users)));
      var totalPages := Directory.TotalPages(total, limit);
      r := Ok(DoctorPage(doctors, Pagination(page, totalPages, total, page < totalPages)));

      assert pipeline == Directory.FilterStages(specialty, location)
                         + [Directory.Skip(Directory.SkipFor(page, limit)), Directory.Limit(limit)] by {
        assert pipeline == pipeline[..|pipeline| - 2] + pipeline[|pipeline| - 2..];
      }
      Directory.PageResult(users, doctorProfiles, specialty, location, page, limit);
      Directory.CountResult(users, doctorProfiles, specialty, location);
      Directory.HasNextIffMoreAfterPage(page, limit, total);
    }
  }
}
