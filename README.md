# Telehealth booking backend — a Dafny model

This project models the request handlers at the core of a small telehealth
backend (`app.py`). The backend is a Flask application over a MongoDB store.
The model covers:

- the two input validators of registration (`validate_email`, `validate_password`);
- the role gate `role_required` (look the caller up by id; 404 if absent, 403 for the wrong role);
- `register`, which checks five required fields, the e-mail pattern, the password
  policy, a duplicate e-mail and the user type, then writes the user and one
  profile of its kind;
- `login`, which looks the account up by lower-cased e-mail, checks the password,
  refuses a deactivated account, then stamps `last_login`;
- `get_available_doctors`, which parses and validates `page` and `limit`, builds
  the aggregation pipeline by appends, runs it, re-runs it with `$count` for the
  total, and computes `total_pages` and `has_next`;
- `book_appointment`, which runs its checks in the handler's order (role, required
  fields, doctor id, active doctor, date, future date, duration, consultation
  type, conflict query), looks up the fee and inserts the appointment.

Layout:

- `records.dfy` — the documents (`User`, `DoctorProfile`, `PatientProfile`,
  `Appointment`), every error answer and its status code, and `FindFirst`, the
  store's `find_one`.
- `text.dfy` — ASCII character classes, `re.search` for one character class,
  `str.lower()` on ASCII, and the case-insensitive `$regex` substring match.
- `validation.dfy` — the password policy and the e-mail pattern.
- `conflict.dfy` — the conflict query of booking, read as Python builds it.
- `directory.dfy` — the pipeline stages, an interpreter that runs them over
  in-memory documents, the listing they compute, and the pagination arithmetic.
- `store.dfy` — each handler as a function from a store snapshot (`Db`) and a
  request to an answer and the new snapshot, plus the store invariant
  `Consistent`.
- `store_facts.dfy` — what the handlers guarantee, and that each keeps
  `Consistent`.
- `backend.dfy` — the service as an object (`Backend.Service`) that owns the
  collections and the id counter. Its handler methods scan and update them step
  by step, and each is proved to answer and write exactly what the `Store`
  function says.

Services the code calls but does not define are parameters: password hashing
and checking, `ObjectId(...)` parsing and ISO-8601 parsing. They are fields of
`Store.Services`. Fresh ObjectIds come from a counter, and the clock is a `now`
argument in whole seconds.

## Behaviour worth knowing

The model follows the code, including these behaviours:

- **Booking conflict query.** The three `$or` alternatives, read entry by
  entry, describe half-open interval overlap, where back-to-back slots do not
  conflict (`Conflict.IntendedIsOverlap`). But the third alternative
  (app.py:416-419) is a Python dict display that names `appointment_date`
  twice, so only `{'$lt': end_time}` survives. The whole query then reduces to
  "same doctor, live status, and the existing appointment starts before the
  proposed end" (`Conflict.QueryReduces`). It flags every overlapping
  appointment (`Conflict.OverlapIsFlagged`). It also flags every earlier
  appointment, including an adjacent one (`Conflict.EarlierAppointmentIsFlagged`,
  `Conflict.AdjacentSlotExample`). So after one booking, the same doctor can
  no longer be booked for any slot that ends after the booked start
  (`StoreFacts.BookedSlotBlocksLaterSlots`). Because every overlap is flagged,
  the store never holds two overlapping live appointments of one doctor
  (`Conflict.NoLiveOverlap`, kept by `StoreFacts.BookKeepsConsistent`).
- **Duplicate e-mail.** The duplicate check (app.py:105) compares the address
  as sent, but the store keeps it lower-cased (app.py:120). An address that
  differs from a stored one only in case therefore passes the check and
  registers a second account under the same stored e-mail
  (`StoreFacts.CaseVariantRegistersTwice`). Login then reaches whichever of the
  two comes first in store order.
- **Deactivated accounts behind the role gate.** The role gate (app.py:60-72)
  checks only the role, so a deactivated account with a valid token passes it
  (`Store.AuthorizeByRole`). Only `login` refuses deactivated accounts.
- **Directory order.** The pipeline has no `$sort`, so MongoDB promises no
  order for the listing. The model fixes one: the order the documents are
  stored in (see "## Left out").
- **Location filter.** The location stage is the placeholder
  `{'first_name': {'$exists': True}}`, which keeps every document
  (`Directory.MatchFirstNameOnJoined`).

## Model

| member | source | states |
|---|---|---|
| Find.FindFirst | app.py:182 | `find_one` returns the first record in store order that the filter accepts, or nothing exactly when no record is accepted |
| Records.StatusCode | app.py:63-70 | every refusal of the modelled handlers is answered with a 4xx status |
| Text.Search | app.py:45-51 | `re.search` with one character class succeeds exactly when some character of the text is in the class |
| Text.LowerChar | app.py:120 | lower-casing turns an upper-case ASCII letter into the same letter in lower case and leaves other characters alone |
| Text.ToLower | app.py:120 | `str.lower()` keeps the length and lower-cases character by character |
| Text.ToLowerIsLowerCased | app.py:120 | a lower-cased e-mail has no upper-case letter left, and lower-casing it again changes nothing |
| Text.ToLowerOfLowerCased | app.py:182 | lower-casing an already lower-cased address leaves it unchanged |
| Validation.ValidPassword | app.py:42-53 | a password is accepted exactly when it has at least 8 characters and an upper-case letter, a lower-case letter, a digit and one of `@$!%*?&` |
| Validation.PasswordExamples | app.py:42-53 | `Passw0rd!` is accepted; `password` (no upper case, digit or symbol) and `Short1!` (too short) are refused |
| Validation.LastIndexOf | app.py:39 | the position of the last occurrence of a character, or nothing when it does not occur |
| Validation.SplitIsFirstAtLastDot | app.py:39 | any split of an address that fits the pattern puts the `@` at its first occurrence and the `\.` at the last dot |
| Validation.ValidEmailMatchesPattern | app.py:38-40 | `validate_email` accepts an address exactly when some split of it matches the anchored pattern |
| Validation.ValidEmailShape | app.py:38-40 | an accepted address has exactly one `@`, a non-empty local part, a final dot followed by at least two letters, and only ASCII characters |
| Validation.AcceptedEmailExample | app.py:39 | `jo.doe@example.com` is accepted |
| Validation.ShortDomainRejected | app.py:39 | `jo@example.c` is refused: the top-level domain needs two letters |
| Validation.EmptyLocalRejected | app.py:39 | `@example.com` is refused: the local part cannot be empty |
| Validation.DoubleAtRejected | app.py:39 | `jo@@example.com` is refused: the domain cannot hold an `@` |
| Conflict.DictDisplayKeys | app.py:416-419 | a Python dict display holds exactly the keys written in it |
| Conflict.DictDisplayLastWins | app.py:416-419 | a key written twice in a dict display keeps the value written last |
| Conflict.BuiltDicts | app.py:407-420 | the first two `$or` alternatives keep both bounds; the third keeps only `appointment_date < end_time` |
| Conflict.QueryReduces | app.py:404-421 | for a positive duration the conflict query flags exactly the live appointments of the same doctor that start before the proposed end |
| Conflict.OverlapIsFlagged | app.py:404-421 | every live appointment of the doctor that overlaps the proposed half-open slot is flagged |
| Conflict.OnlyLiveSameDoctorConflicts | app.py:405-406 | appointments of another doctor, and cancelled or no-show ones, are never flagged |
| Conflict.LaterAppointmentIsFree | app.py:407-420 | an appointment starting at or after the proposed end is never flagged |
| Conflict.EarlierAppointmentIsFlagged | app.py:416-419 | a live appointment of the doctor that ends at or before the proposed start is flagged although it does not overlap |
| Conflict.IntendedIsOverlap | app.py:407-420 | the alternatives read entry by entry are exactly half-open overlap |
| Conflict.AdjacentSlotExample | app.py:402-421 | against a booking at [10:00, 10:30), the query refuses the adjacent [10:30, 11:00), which overlap accepts; both refuse [10:15, 10:45) |
| Conflict.UnflaggedInsertKeepsNoOverlap | app.py:404-451 | inserting an appointment that the query flags against nothing keeps the live appointments of every doctor free of overlaps |
| Store.FirstMissing | app.py:82-88 | the first required field that is absent or falsy, or nothing exactly when all are present |
| Store.Authorize | app.py:60-70 | 404 exactly when no user has the caller's id; success gives a stored user with that id and the required role; any other answer is a 403 for the required role, about a stored user with that id and another role |
| Store.AuthorizeByRole | app.py:60-72 | with unique ids the gate admits a stored user exactly when its role is the required one, active or not, and hands back that user's record |
| Store.RegisterRefusal | app.py:82-116 | when no check of registration fails, all five required fields are present |
| Store.ScheduleChecks | app.py:368-428 | a slot that passes the date, duration, type and conflict checks has a valid duration and consultation type (which refusal each check gives is in `StoreFacts.ScheduleCheckOrder`) |
| Store.BookingChecks | app.py:339-428 | a request that passes every booking check has a valid duration and consultation type (the order of refusals is in `StoreFacts.BookCheckOrder`) |
| StoreFacts.RegisterOutcome | app.py:77-162 | registration succeeds exactly when every check passes; success answers with the next id, the e-mail as sent and the user type, and writes exactly the new user and its profile; a refusal writes nothing |
| StoreFacts.RegisterCheckOrder | app.py:82-116 | a missing field is answered first, then a bad e-mail, then a weak password, then a duplicate e-mail, then a user type other than patient or doctor, each only when the earlier checks pass |
| StoreFacts.MissingFieldIsFirst | app.py:82-88 | a missing-field answer names the first required field, in the handler's order, that is absent or empty |
| StoreFacts.CaseVariantRegistersTwice | app.py:105-120 | an address differing from a stored one only in case registers, and two users then hold the same stored e-mail |
| StoreFacts.ExactDuplicateRefused | app.py:104-109 | an address stored exactly as sent is refused with 409 and nothing is written |
| StoreFacts.RegistrationKeepsConsistent | app.py:118-152 | writing an admissible registration keeps ids unique and issued, e-mails lower-cased, and every profile linked to one user of its kind |
| StoreFacts.RegisterKeepsConsistent | app.py:77-162 | registration keeps the store invariant |
| StoreFacts.LoginCheckOrder | app.py:175-179 | a login without an e-mail or a password (absent or empty) is answered 400 and writes nothing, and a login with both is never answered 400 |
| StoreFacts.LoginAnswers | app.py:175-216 | for the first user stored under the lower-cased address: 401 when none exists or the password does not check, 403 when it checks but the account is inactive, 200 with the user's summary and a one-hour token otherwise |
| StoreFacts.LoginWrites | app.py:196-201 | a refused login writes nothing; a successful one sets `last_login` on the caller's record alone |
| StoreFacts.LoginKeepsConsistent | app.py:196-201 | login keeps the store invariant |
| StoreFacts.RegisterThenLogin | app.py:119-121 | right after registering, logging in with the same address and password reaches the new account, when the hash service accepts its own hashes and no older account holds the lower-cased address |
| StoreFacts.ConflictFound | app.py:404-423 | the conflict `find_one` finds a document exactly when some live appointment of the doctor starts before the proposed end |
| StoreFacts.ScheduleOutcome | app.py:381-428 | past the date checks, with a valid duration and type, the schedule check refuses with 409 exactly when the slot is blocked and otherwise accepts the slot |
| StoreFacts.BookOutcome | app.py:331-452 | once every earlier check passes, booking answers 409 exactly when the slot is blocked; success appends one confirmed appointment under two fresh ids; a refusal writes nothing |
| StoreFacts.ParticipantCheckOrder | app.py:339-366 | the role gate's refusal comes first, then a missing field, then a doctor id that does not parse, then 404 when no active doctor has it; the checks pass exactly when all four do, for the parsed doctor id |
| StoreFacts.ScheduleCheckOrder | app.py:368-399 | a date that does not parse is refused first, then one not in the future, then a duration outside 15/30/45/60, then a consultation type outside video/audio/chat, each only when the earlier checks pass |
| StoreFacts.BookCheckOrder | app.py:331-399 | booking answers the role gate's refusal, a missing field, a bad doctor id, an unknown or inactive doctor, a bad date, a past date, a bad duration or a bad consultation type exactly when that check is the first to fail |
| StoreFacts.BookMissingFieldIsFirst | app.py:339-345 | a booking's missing-field answer names the first of `doctor_id`, `appointment_date`, `duration`, `consultation_type` that is absent or falsy |
| StoreFacts.BookFailureWritesNothing | app.py:338-428 | a refused booking leaves the store as it was |
| StoreFacts.PastDateRefused | app.py:381-385 | a start not in the future is refused before duration, type or schedule are looked at |
| StoreFacts.BookedSlotBlocksLaterSlots | app.py:404-427 | after a booking, any request for the same doctor whose slot ends after the booked start is refused with 409 |
| StoreFacts.BookedPassedEveryCheck | app.py:339-428 | a confirmed booking passed every check for the doctor and start it confirms, and names the caller as patient |
| StoreFacts.BookTwiceRefused | app.py:404-427 | the same request sent twice is refused the second time and writes nothing |
| StoreFacts.InsertKeepsConsistent | app.py:434-451 | inserting an unflagged appointment with fresh ids between existing users of the right roles keeps the store invariant |
| StoreFacts.BookKeepsConsistent | app.py:402-451 | booking keeps the store invariant; in particular no doctor becomes double-booked |
| Directory.ProfilesOf | app.py:249-256 | `$lookup` attaches exactly the profiles whose `user_id` is the user's id |
| Directory.ProfilesOfCounts | app.py:249-258 | `$lookup` attaches each matching profile as many times as it is stored, and no other profile, so `$unwind` emits one document per stored profile |
| Directory.ProfilesOfInOrder | app.py:249-258 | the attached profiles keep their store order |
| Directory.KeepSpecialty | app.py:263-268 | the specialty stage keeps exactly the profiles whose specialty contains the pattern, ignoring case |
| Directory.KeepSpecialtyCounts | app.py:263-268 | the specialty stage keeps each matching profile as many times as it is given, and no other profile |
| Directory.KeepSpecialtyInOrder | app.py:263-268 | the kept profiles stay in their order |
| Directory.BuildPipeline | app.py:242-294 | the pipeline is the filter stages followed by `$skip (page-1)*limit` and `$limit limit` |
| Directory.JoinStages | app.py:242-260 | match, lookup and unwind turn an active doctor into one document per profile, and drop any other user or a doctor without a profile |
| Directory.MatchSpecialtyOnJoined | app.py:263-268 | the specialty stage on one doctor's joined profiles keeps the matching ones in order |
| Directory.MatchFirstNameOnJoined | app.py:270-275 | the location placeholder keeps every joined document |
| Directory.ProjectOnJoined | app.py:278-288 | the projection turns each joined profile into its summary |
| Directory.OptionalStages | app.py:263-275 | the optional specialty and location stages together apply the specialty filter only |
| Directory.OneUser | app.py:242-288 | the filter stages on one user document give that user's matching summaries, or nothing for a user who is not an active doctor |
| Directory.FilterStagesComputeListing | app.py:242-288 | the filter stages over the users collection compute exactly the listing stated directly |
| Directory.ListedIff | app.py:242-288 | a summary is listed exactly when it belongs to a stored active doctor and one of its stored profiles whose specialty matches |
| Directory.SkipThenLimit | app.py:290-294 | `$skip` then `$limit` is the clipped slice `[skip, skip + limit)` |
| Directory.PageOfShows | app.py:290-296 | a page holds at most `limit` summaries, those from position `(page-1)*limit` on, and is full unless the listing ends on it |
| Directory.PageResult | app.py:290-296 | the handler's pipeline returns the requested page of the listing |
| Directory.CountResult | app.py:299-302 | the count pipeline returns the length of the whole listing |
| Directory.TotalPagesIsCeiling | app.py:304 | `total_pages` is the ceiling of total over limit: no page is empty and none is missing |
| Directory.HasNextIffMoreAfterPage | app.py:304-314 | `has_next` holds exactly when some listed doctor lies after the current page |
| Directory.PaginationExample | app.py:304-314 | 23 doctors at 10 a page make 3 pages, and only the third has no next |
| Directory.EveryItemHasAPage | app.py:290-304 | every listed position appears on a page that exists |
| Backend.FindOne | app.py:356-360 | the scan returns what `find_one` returns: the first accepted record |
| Backend.FirstMissingField | app.py:340-345 | the loop over the required fields stops at the first missing one |
| Backend.Service.NewId | app.py:133-134 | a fresh id is drawn from the counter and nothing else changes |
| Backend.Service.RequireRole | app.py:60-72 | the gate's lookup and role check answer as `Store.Authorize` |
| Backend.Service.CheckRegistration | app.py:82-116 | the checks of registration, in order, refuse as `Store.RegisterRefusal` |
| Backend.Service.AddAccount | app.py:118-152 | the writes of registration store the user under the next id and its profile, as `Store.Registration` |
| Backend.Service.Register | app.py:77-162 | registration answers and writes as `Store.Register`, keeping the store invariant |
| Backend.Service.Login | app.py:171-216 | login answers and writes as `Store.Login`, keeping the store invariant |
| Backend.Service.CheckParticipants | app.py:339-366 | the role gate, required fields, doctor id and doctor lookup answer as `Store.ParticipantChecks` |
| Backend.Service.CheckSchedule | app.py:368-428 | the date, duration, type and conflict checks answer as `Store.ScheduleChecks` |
| Backend.Service.AddAppointment | app.py:430-452 | the insert appends the appointment `Store.NewAppointment` describes and draws two ids |
| Backend.Service.ProcessBooking | app.py:331-475 | booking answers and writes as `Store.Book` |
| Backend.Service.BookAppointment | app.py:331-475 | booking answers and writes as `Store.Book`, keeping the store invariant |
| Backend.Service.ListDoctors | app.py:225-323 | a non-integer argument gives the 400 for a bad parameter; otherwise an out-of-range one gives the 400 for bad pagination, and in-range arguments always get the 200 answer: the requested page of the listing, its total, `total_pages`, and `has_next` exactly when doctors remain after the page |

## Left out

- `db_seed.py` is not part of this model. It only fills a development database.
- `health_check`, the JSON encoder, error handlers and the Flask, JWT and
  MongoDB plumbing are left out. Requests arrive as parsed fields.
- Password hashing and checking, `ObjectId(...)` parsing and ISO-8601 date
  parsing with UTC normalisation are injected services (`Store.Services`),
  because they are library code.
- Fresh ObjectIds are a counter. The meeting link is the room's id, not a URL.
- The clock is the `now` argument in whole seconds. Sub-second precision of
  `utcnow()` is not modelled.
- The access token is its identity (the user id). Signing and expiry checking
  are left out.
- The 500 paths are left out: exceptions from the store, and the `float(...)`
  and `int(...)` coercions of `consultation_fee` and `years_experience` at
  registration. The model takes those fields already typed.
- The `next_available` timestamp of the directory projection and the unused
  `date` query argument are left out.
- Directory.DoctorSummary: `$project` keeps `_id` unless told otherwise, so each
  listed doctor also carries `_id` beside `id`. The model keeps only `id`, which
  holds the same value.
- `$regex` treats the specialty argument as a literal substring. Regular
  expression metacharacters in it are not interpreted.
- Validation.ValidEmail: reads `$` as the end of the text. In Python, `$` also
  matches just before a final newline, so `validate_email` accepts
  `"jo@example.com\n"`, which the model refuses.
- JSON numbers in a booking are integers only. A float such as `"duration": 30.0`
  passes the duration check in Python (`30.0 in [15, 30, 45, 60]`) and is
  booked. `Records.Json` cannot express that request.
- MongoDB promises no order for `find_one` or for an `aggregate` without
  `$sort`. The model fixes the order the documents are stored in, for every
  `find_one` (`Find.FindFirst`) and for the directory listing. That choice
  decides which of two case-variant accounts a login reaches
  (`StoreFacts.LoginAnswers`) and the order of the pages.
- Lower-casing and the `\d` class are ASCII only. Python's Unicode
  `str.lower()` and Unicode digits are not modelled.
- Ratings and fees are `real`. Floating-point rounding is not modelled.
- Concurrency is left out, so the race between the conflict check and the
  insert is outside the model. Every handler runs alone against one snapshot.
- Profiles' own `_id`s are not tracked. Profiles are found by `user_id`.
