/**
 * The doctor directory: the aggregation pipeline `get_available_doctors`
 * builds over the users collection, a small interpreter that runs such a
 * pipeline over in-memory documents, and the pagination arithmetic.
 *
 * `$lookup`, `$unwind`, `$match`, `$project`, `$skip`, `$limit` and `$count`
 * are sequence operations here; documents keep the collection's order.
 */
module Directory {
  import opened Records
  import opened Text

  /**
   * The projection of app.py:278-288, without `next_available` (a timestamp)
   * and without the `_id` that `$project` keeps unless told otherwise; `id`
   * carries the same value.
   */
  datatype DoctorSummary = DoctorSummary(
    id: Id,
    name: string,
    specialty: string,
    rating: real,
    consultationFee: real,
    yearsExperience: int)

  /** The shapes a document takes as it travels through the pipeline. */
  datatype Doc =
    | UserDoc(user: User)                                  // a users document
    | LookedUp(user: User, profiles: seq<DoctorProfile>)   // after `$lookup`
    | Joined(user: User, profile: DoctorProfile)           // after `$unwind`
    | SummaryDoc(summary: DoctorSummary)                   // after `$project`
    | TotalDoc(total: nat)                                 // the output of `$count`

  datatype Stage =
    | MatchActiveDoctor          // {'$match': {'role': 'doctor', 'is_active': True}}
    | LookupProfiles             // {'$lookup': doctor_profiles on user_id, as 'profile'}
    | UnwindProfile              // {'$unwind': '$profile'}
    | MatchSpecialty(pattern: string)  // {'$match': {'profile.specialty': {'$regex': ..., '$options': 'i'}}}
    | MatchFirstName             // {'$match': {'first_name': {'$exists': True}}}
    | Project                    // {'$project': {...}}
    | Skip(n: nat)
    | Limit(n: nat)
    | Count                      // {'$count': 'total'}

  /** A stage that treats each document on its own (all but skip, limit and count). */
  predicate PerDocument(st: Stage) {
    !(st.Skip? || st.Limit? || st.Count?)
  }

  predicate IsActiveDoctor(u: User) {
    u.role == "doctor" && u.isActive
  }

  /** The user fields of a document, if it still carries them. */
  function UserOf(d: Doc): Option<User> {
    match d
    case UserDoc(u) => Some(u)
    case LookedUp(u, _) => Some(u)
    case Joined(u, _) => Some(u)
    case _ => None
  }

  /** `a` is `b` with some elements left out, the rest kept in order. */
  predicate Subsequence<T(==)>(a: seq<T>, b: seq<T>)
    decreases |b|
  {
    if a == [] then true
    else if b == [] then false
    else if a[0] == b[0] then Subsequence(a[1..], b[1..])
    else Subsequence(a, b[1..])
  }

  /** The profiles `$lookup` attaches to a user: those whose `user_id` is its id, in store order. */
  function ProfilesOf(u: User, profiles: seq<DoctorProfile>): (ps: seq<DoctorProfile>)
    ensures forall p :: p in ps <==> p in profiles && p.userId == u.id
  {
    if profiles == [] then []
    else (if profiles[0].userId == u.id then [profiles[0]] else []) + ProfilesOf(u, profiles[1..])
  }

  /** `$lookup` keeps each matching profile as often as it is stored. */
  lemma {:induction false} ProfilesOfCounts(u: User, profiles: seq<DoctorProfile>)
    ensures forall p :: multiset(ProfilesOf(u, profiles))[p] == if p.userId == u.id then multiset(profiles)[p] else 0
    decreases |profiles|
  {
    if profiles != [] {
      ProfilesOfCounts(u, profiles[1..]);
      var head := if profiles[0].userId == u.id then [profiles[0]] else [];
      assert ProfilesOf(u, profiles) == head + ProfilesOf(u, profiles[1..]);
      assert multiset(ProfilesOf(u, profiles)) == multiset(head) + multiset(ProfilesOf(u, profiles[1..]));
      assert profiles == [profiles[0]] + profiles[1..];
      assert multiset(profiles) == multiset([profiles[0]]) + multiset(profiles[1..]);
    }
  }

  /** `$lookup` keeps the matching profiles in store order. */
  lemma {:induction false} ProfilesOfInOrder(u: User, profiles: seq<DoctorProfile>)
    ensures Subsequence(ProfilesOf(u, profiles), profiles)
    decreases |profiles|
  {
    if profiles != [] {
      ProfilesOfInOrder(u, profiles[1..]);
      var rest := ProfilesOf(u, profiles[1..]);
      if profiles[0].userId == u.id {
        assert ProfilesOf(u, profiles)[1..] == rest;
      } else {
        assert ProfilesOf(u, profiles) == rest;
        if rest != [] {
          assert rest[0] in rest && rest[0] != profiles[0];
        }
      }
    }
  }

  function Summarize(u: User, p: DoctorProfile): DoctorSummary {
    DoctorSummary(u.id, u.firstName + " " + u.lastName, p.specialty, p.rating,
                  p.consultationFee, p.yearsExperience)
  }

  function JoinedDocs(u: User, ps: seq<DoctorProfile>): seq<Doc> {
    seq(|ps|, i requires 0 <= i < |ps| => Joined(u, ps[i]))
  }

  /** What one per-document stage makes of one document. */
  function Step(st: Stage, profiles: seq<DoctorProfile>, d: Doc): seq<Doc>
    requires PerDocument(st)
  {
    match st
    case MatchActiveDoctor =>
      if UserOf(d).Some? && IsActiveDoctor(UserOf(d).value) then [d] else []
    case LookupProfiles =>
      if d.UserDoc? then [LookedUp(d.user, ProfilesOf(d.user, profiles))] else [d]
    case UnwindProfile =>
      // a document without the array, or with an empty one, is dropped
      if d.LookedUp? then JoinedDocs(d.user, d.profiles) else []
    case MatchSpecialty(pattern) =>
      if d.Joined? && ContainsIgnoreCase(d.profile.specialty, pattern) then [d] else []
    case MatchFirstName =>
      if UserOf(d).Some? then [d] else []
    case Project =>
      if d.Joined? then [SummaryDoc(Summarize(d.user, d.profile))] else [d]
  }

  function FlatMap(st: Stage, profiles: seq<DoctorProfile>, docs: seq<Doc>): seq<Doc>
    requires PerDocument(st)
  {
    if docs == [] then [] else Step(st, profiles, docs[0]) + FlatMap(st, profiles, docs[1..])
  }

  function Min(a: int, b: int): int { if a <= b then a else b }

  /** One stage over the whole document stream. */
  function Apply(st: Stage, profiles: seq<DoctorProfile>, docs: seq<Doc>): seq<Doc> {
    match st
    case Skip(n) => docs[Min(n, |docs|)..]
    case Limit(n) => docs[..Min(n, |docs|)]
    case Count => if docs == [] then [] else [TotalDoc(|docs|)]
    case _ => FlatMap(st, profiles, docs)
  }

  /** `aggregate(pipeline)`: the stages applied in order. */
  function Run(stages: seq<Stage>, profiles: seq<DoctorProfile>, docs: seq<Doc>): seq<Doc>
    decreases |stages|
  {
    if stages == [] then docs else Run(stages[1..], profiles, Apply(stages[0], profiles, docs))
  }

  /** The users collection as the pipeline's input. */
  function UserDocs(users: seq<User>): seq<Doc> {
    seq(|users|, i requires 0 <= i < |users| => UserDoc(users[i]))
  }

  /** The stages before `$skip` and `$limit` (app.py:242-288). */
  function FilterStages(specialty: Option<string>, location: Option<string>): seq<Stage> {
    [MatchActiveDoctor, LookupProfiles, UnwindProfile] + OptionalFilters(specialty, location) + [Project]
  }

  /** The pipeline of app.py:242-294, grown by appends as the handler grows it. */
  method BuildPipeline(specialty: Option<string>, location: Option<string>, page: int, limit: int)
    returns (pipeline: seq<Stage>)
    requires page >= 1 && limit >= 1
    ensures |pipeline| >= 2
    ensures pipeline[..|pipeline| - 2] == FilterStages(specialty, location)
    ensures pipeline[|pipeline| - 2..] == [Skip(SkipFor(page, limit)), Limit(limit)]
  {
    pipeline := [MatchActiveDoctor, LookupProfiles, UnwindProfile];
    if Present(specialty) {
      pipeline := pipeline + [MatchSpecialty(specialty.value)];
    }
    if Present(location) {
      pipeline := pipeline + [MatchFirstName];
    }
    pipeline := pipeline + [Project];
    pipeline := pipeline + [Skip(SkipFor(page, limit)), Limit(limit)];
  }

  // ---------------------------------------------------------------------
  // What the filter stages compute
  // ---------------------------------------------------------------------

  /** The specialty filter: absent or empty matches every profile. */
  predicate SpecialtyMatches(specialty: Option<string>, p: DoctorProfile) {
    !Present(specialty) || ContainsIgnoreCase(p.specialty, specialty.value)
  }

  /** The profiles the specialty filter keeps. */
  function KeepSpecialty(ps: seq<DoctorProfile>, specialty: Option<string>): (kept: seq<DoctorProfile>)
    ensures forall p :: p in kept <==> p in ps && SpecialtyMatches(specialty, p)
  {
    if ps == [] then []
    else (if SpecialtyMatches(specialty, ps[0]) then [ps[0]] else []) + KeepSpecialty(ps[1..], specialty)
  }

  /** The specialty filter keeps each matching profile as often as given. */
  lemma {:induction false} KeepSpecialtyCounts(ps: seq<DoctorProfile>, specialty: Option<string>)
    ensures forall p :: multiset(KeepSpecialty(ps, specialty))[p] == (if SpecialtyMatches(specialty, p) then multiset(ps)[p] else 0)
    decreases |ps|
  {
    if ps != [] {
      KeepSpecialtyCounts(ps[1..], specialty);
      var head := if SpecialtyMatches(specialty, ps[0]) then [ps[0]] else [];
      assert KeepSpecialty(ps, specialty) == head + KeepSpecialty(ps[1..], specialty);
      assert multiset(KeepSpecialty(ps, specialty)) == multiset(head) + multiset(KeepSpecialty(ps[1..], specialty));
      assert ps == [ps[0]] + ps[1..];
      assert multiset(ps) == multiset([ps[0]]) + multiset(ps[1..]);
    }
  }

  /** The specialty filter keeps the matching profiles in order. */
  lemma {:induction false} KeepSpecialtyInOrder(ps: seq<DoctorProfile>, specialty: Option<string>)
    ensures Subsequence(KeepSpecialty(ps, specialty), ps)
    decreases |ps|
  {
    if ps != [] {
      KeepSpecialtyInOrder(ps[1..], specialty);
      var rest := KeepSpecialty(ps[1..], specialty);
      if SpecialtyMatches(specialty, ps[0]) {
        assert KeepSpecialty(ps, specialty)[1..] == rest;
      } else {
        assert KeepSpecialty(ps, specialty) == rest;
        if rest != [] {
          assert rest[0] in rest && rest[0] != ps[0];
        }
      }
    }
  }

  function SummariesFor(u: User, ps: seq<DoctorProfile>): seq<DoctorSummary> {
    seq(|ps|, i requires 0 <= i < |ps| => Summarize(u, ps[i]))
  }

  /**
   * The listing the filter stages describe, stated directly: for each active
   * doctor in store order, one summary per profile of theirs whose specialty
   * matches.
   */
  function Listing(users: seq<User>, profiles: seq<DoctorProfile>, specialty: Option<string>): seq<DoctorSummary>
    decreases |users|
  {
    if users == [] then []
    else
      var u := users[0];
      (if IsActiveDoctor(u) then SummariesFor(u, KeepSpecialty(ProfilesOf(u, profiles), specialty)) else [])
      + Listing(users[1..], profiles, specialty)
  }

  function SummaryDocs(ss: seq<DoctorSummary>): seq<Doc> {
    seq(|ss|, i requires 0 <= i < |ss| => SummaryDoc(ss[i]))
  }

  /** The summaries of a result, as `list(aggregate(...))` hands them back. */
  function SummariesOf(docs: seq<Doc>): seq<DoctorSummary> {
    if docs == [] then []
    else (if docs[0].SummaryDoc? then [docs[0].summary] else []) + SummariesOf(docs[1..])
  }

  /** `total_result[0]['total'] if total_result else 0`. */
  function TotalOf(docs: seq<Doc>): nat {
    if docs != [] && docs[0].TotalDoc? then docs[0].total else 0
  }

  lemma FlatMapSingle(st: Stage, profiles: seq<DoctorProfile>, d: Doc)
    requires PerDocument(st)
    ensures FlatMap(st, profiles, [d]) == Step(st, profiles, d)
  {
    assert [d][1..] == [];
  }

  lemma {:induction false} FlatMapAppend(st: Stage, profiles: seq<DoctorProfile>, a: seq<Doc>, b: seq<Doc>)
    requires PerDocument(st)
    ensures FlatMap(st, profiles, a + b) == FlatMap(st, profiles, a) + FlatMap(st, profiles, b)
  {
    if a != [] {
      assert (a + b)[0] == a[0];
      assert (a + b)[1..] == a[1..] + b;
      FlatMapAppend(st, profiles, a[1..], b);
    } else {
      assert a + b == b;
    }
  }

  /** Running `s1 + s2` is running `s1`, then `s2` on its output. */
  lemma {:induction false} RunAppend(s1: seq<Stage>, s2: seq<Stage>, profiles: seq<DoctorProfile>, docs: seq<Doc>)
    ensures Run(s1 + s2, profiles, docs) == Run(s2, profiles, Run(s1, profiles, docs))
    decreases |s1|
  {
    if s1 != [] {
      assert (s1 + s2)[0] == s1[0];
      assert (s1 + s2)[1..] == s1[1..] + s2;
      RunAppend(s1[1..], s2, profiles, Apply(s1[0], profiles, docs));
    } else {
      assert s1 + s2 == s2;
    }
  }

  /** Per-document stages treat the two halves of a stream independently. */
  lemma {:induction false} RunSplits(stages: seq<Stage>, profiles: seq<DoctorProfile>, a: seq<Doc>, b: seq<Doc>)
    requires forall k :: 0 <= k < |stages| ==> PerDocument(stages[k])
    ensures Run(stages, profiles, a + b) == Run(stages, profiles, a) + Run(stages, profiles, b)
    decreases |stages|
  {
    if stages != [] {
      FlatMapAppend(stages[0], profiles, a, b);
      RunSplits(stages[1..], profiles, Apply(stages[0], profiles, a), Apply(stages[0], profiles, b));
    }
  }

  lemma {:induction false} RunEmpty(stages: seq<Stage>, profiles: seq<DoctorProfile>)
    requires forall k :: 0 <= k < |stages| ==> PerDocument(stages[k])
    ensures Run(stages, profiles, []) == []
    decreases |stages|
  {
    if stages != [] {
      RunEmpty(stages[1..], profiles);
    }
  }

  lemma {:induction false} MatchSpecialtyOnJoined(u: User, ps: seq<DoctorProfile>, pattern: string, profiles: seq<DoctorProfile>)
    requires pattern != ""
    ensures FlatMap(MatchSpecialty(pattern), profiles, JoinedDocs(u, ps))
         == JoinedDocs(u, KeepSpecialty(ps, Some(pattern)))
  {
    if ps != [] {
      assert JoinedDocs(u, ps)[1..] == JoinedDocs(u, ps[1..]);
      MatchSpecialtyOnJoined(u, ps[1..], pattern, profiles);
      var rest := KeepSpecialty(ps[1..], Some(pattern));
      if SpecialtyMatches(Some(pattern), ps[0]) {
        assert JoinedDocs(u, [ps[0]] + rest) == [Joined(u, ps[0])] + JoinedDocs(u, rest);
      } else {
        assert KeepSpecialty(ps, Some(pattern)) == rest;
      }
    }
  }

  lemma {:induction false} MatchFirstNameOnJoined(u: User, ps: seq<DoctorProfile>, profiles: seq<DoctorProfile>)
    ensures FlatMap(MatchFirstName, profiles, JoinedDocs(u, ps)) == JoinedDocs(u, ps)
  {
    if ps != [] {
      assert JoinedDocs(u, ps)[1..] == JoinedDocs(u, ps[1..]);
      MatchFirstNameOnJoined(u, ps[1..], profiles);
      assert JoinedDocs(u, ps) == [Joined(u, ps[0])] + JoinedDocs(u, ps[1..]);
    }
  }

  lemma {:induction false} ProjectOnJoined(u: User, ps: seq<DoctorProfile>, profiles: seq<DoctorProfile>)
    ensures FlatMap(Project, profiles, JoinedDocs(u, ps)) == SummaryDocs(SummariesFor(u, ps))
  {
    if ps != [] {
      assert JoinedDocs(u, ps)[1..] == JoinedDocs(u, ps[1..]);
      ProjectOnJoined(u, ps[1..], profiles);
      assert SummaryDocs(SummariesFor(u, ps))
          == [SummaryDoc(Summarize(u, ps[0]))] + SummaryDocs(SummariesFor(u, ps[1..]));
    }
  }

  /** Match, lookup and unwind turn one user into its joined profiles, or drop it. */
  lemma JoinStages(u: User, profiles: seq<DoctorProfile>)
    ensures Run([MatchActiveDoctor, LookupProfiles, UnwindProfile], profiles, [UserDoc(u)])
         == if IsActiveDoctor(u) then JoinedDocs(u, ProfilesOf(u, profiles)) else []
  {
    var ps := ProfilesOf(u, profiles);
    FlatMapSingle(MatchActiveDoctor, profiles, UserDoc(u));
    FlatMapSingle(LookupProfiles, profiles, UserDoc(u));
    FlatMapSingle(UnwindProfile, profiles, LookedUp(u, ps));
    if !IsActiveDoctor(u) {
      assert FlatMap(LookupProfiles, profiles, []) == [];
      assert FlatMap(UnwindProfile, profiles, []) == [];
    }
  }

  /** The optional specialty and location stages on one doctor's joined profiles. */
  lemma OptionalStages(u: User, ps: seq<DoctorProfile>, profiles: seq<DoctorProfile>,
                       specialty: Option<string>, location: Option<string>)
    ensures Run(OptionalFilters(specialty, location), profiles, JoinedDocs(u, ps))
         == JoinedDocs(u, KeepSpecialty(ps, specialty))
  {
    var spec := if Present(specialty) then [MatchSpecialty(specialty.value)] else [];
    var loc := if Present(location) then [MatchFirstName] else [];
    var kept := KeepSpecialty(ps, specialty);
    RunAppend(spec, loc, profiles, JoinedDocs(u, ps));
    if Present(specialty) {
      MatchSpecialtyOnJoined(u, ps, specialty.value, profiles);
    } else {
      KeepAll(ps, specialty);
    }
    assert Run(spec, profiles, JoinedDocs(u, ps)) == JoinedDocs(u, kept);
    if Present(location) {
      MatchFirstNameOnJoined(u, kept, profiles);
    }
  }

  /** The optional specialty and location stages. */
  function OptionalFilters(specialty: Option<string>, location: Option<string>): seq<Stage> {
    (if Present(specialty) then [MatchSpecialty(specialty.value)] else [])
    + (if Present(location) then [MatchFirstName] else [])
  }

  /** The filter stages run as the join, then the optional filters, then the projection. */
  lemma FilterStagesSplit(specialty: Option<string>, location: Option<string>, profiles: seq<DoctorProfile>,
                          docs: seq<Doc>)
    ensures Run(FilterStages(specialty, location), profiles, docs)
         == Run([Project], profiles, Run(OptionalFilters(specialty, location), profiles,
                  Run([MatchActiveDoctor, LookupProfiles, UnwindProfile], profiles, docs)))
  {
    var head := [MatchActiveDoctor, LookupProfiles, UnwindProfile];
    var opt := OptionalFilters(specialty, location);
    assert FilterStages(specialty, location) == head + opt + [Project];
    RunAppend(head + opt, [Project], profiles, docs);
    RunAppend(head, opt, profiles, docs);
  }

  /** The filter stages applied to one user document. */
  lemma OneUser(u: User, profiles: seq<DoctorProfile>, specialty: Option<string>, location: Option<string>)
    ensures Run(FilterStages(specialty, location), profiles, [UserDoc(u)])
         == SummaryDocs(if IsActiveDoctor(u) then SummariesFor(u, KeepSpecialty(ProfilesOf(u, profiles), specialty)) else [])
  {
    var opt := OptionalFilters(specialty, location);
    FilterStagesSplit(specialty, location, profiles, [UserDoc(u)]);
    JoinStages(u, profiles);
    if IsActiveDoctor(u) {
      var ps := ProfilesOf(u, profiles);
      OptionalStages(u, ps, profiles, specialty, location);
      ProjectOnJoined(u, KeepSpecialty(ps, specialty), profiles);
    } else {
      assert forall k :: 0 <= k < |opt| ==> PerDocument(opt[k]);
      RunEmpty(opt, profiles);
      assert SummaryDocs([]) == [];
    }
  }

  lemma {:induction false} KeepAll(ps: seq<DoctorProfile>, specialty: Option<string>)
    requires !Present(specialty)
    ensures KeepSpecialty(ps, specialty) == ps
  {
    if ps != [] {
      KeepAll(ps[1..], specialty);
      assert ps == [ps[0]] + ps[1..];
    }
  }

  lemma SummaryDocsAppend(a: seq<DoctorSummary>, b: seq<DoctorSummary>)
    ensures SummaryDocs(a + b) == SummaryDocs(a) + SummaryDocs(b)
  {
  }

  /**
   * The filter stages, run over the users collection, produce exactly the
   * listing stated directly; the location stage changes nothing.
   */
  lemma {:induction false} FilterStagesComputeListing(users: seq<User>, profiles: seq<DoctorProfile>,
                                                       specialty: Option<string>, location: Option<string>)
    ensures Run(FilterStages(specialty, location), profiles, UserDocs(users))
         == SummaryDocs(Listing(users, profiles, specialty))
    decreases |users|
  {
    var stages := FilterStages(specialty, location);
    assert forall k :: 0 <= k < |stages| ==> PerDocument(stages[k]);
    if users == [] {
      RunEmpty(stages, profiles);
      assert UserDocs(users) == [];
    } else {
      assert UserDocs(users) == [UserDoc(users[0])] + UserDocs(users[1..]);
      RunSplits(stages, profiles, [UserDoc(users[0])], UserDocs(users[1..]));
      OneUser(users[0], profiles, specialty, location);
      FilterStagesComputeListing(users[1..], profiles, specialty, location);
      var first := if IsActiveDoctor(users[0])
        then SummariesFor(users[0], KeepSpecialty(ProfilesOf(users[0], profiles), specialty)) else [];
      SummaryDocsAppend(first, Listing(users[1..], profiles, specialty));
    }
  }

  lemma {:induction false} SummariesOfSummaryDocs(ss: seq<DoctorSummary>)
    ensures SummariesOf(SummaryDocs(ss)) == ss
  {
    if ss != [] {
      assert SummaryDocs(ss)[1..] == SummaryDocs(ss[1..]);
      SummariesOfSummaryDocs(ss[1..]);
    }
  }

  /**
   * A summary is listed exactly when it belongs to an active doctor and one
   * of that doctor's profiles whose specialty matches the filter.
   */
  lemma {:induction false} ListedIff(users: seq<User>, profiles: seq<DoctorProfile>, specialty: Option<string>,
                                     s: DoctorSummary)
    ensures s in Listing(users, profiles, specialty) <==>
      exists u, p :: u in users && p in profiles && IsActiveDoctor(u) && p.userId == u.id
                  && SpecialtyMatches(specialty, p) && s == Summarize(u, p)
    decreases |users|
  {
    if users != [] {
      ListedIff(users[1..], profiles, specialty, s);
      var u := users[0];
      var kept := KeepSpecialty(ProfilesOf(u, profiles), specialty);
      InSummariesFor(u, kept, s);
      HeadOrTail(users);
    }
  }

  lemma InSummariesFor(u: User, kept: seq<DoctorProfile>, s: DoctorSummary)
    ensures s in SummariesFor(u, kept) <==> exists p :: p in kept && s == Summarize(u, p)
  {
    if s in SummariesFor(u, kept) {
      var i :| 0 <= i < |kept| && SummariesFor(u, kept)[i] == s;
      assert kept[i] in kept;
    }
    if exists p :: p in kept && s == Summarize(u, p) {
      var p :| p in kept && s == Summarize(u, p);
      var i :| 0 <= i < |kept| && kept[i] == p;
      assert SummariesFor(u, kept)[i] == s;
    }
  }

  lemma HeadOrTail(users: seq<User>)
    requires users != []
    ensures forall v :: v in users <==> v == users[0] || v in users[1..]
  {
    forall v | v in users ensures v == users[0] || v in users[1..] {
      var i :| 0 <= i < |users| && users[i] == v;
      if i > 0 { assert users[1..][i - 1] == v; }
    }
  }

  // ---------------------------------------------------------------------
  // Pagination arithmetic
  // ---------------------------------------------------------------------

  /** `skip = (page - 1) * limit`. */
  function SkipFor(page: int, limit: int): nat
    requires page >= 1 && limit >= 1
  {
    MulMonotone(0, page - 1, limit);
    (page - 1) * limit
  }

  lemma MulMonotone(a: int, b: int, c: nat)
    requires a <= b
    ensures a * c <= b * c
  {
    assert b * c - a * c == (b - a) * c;
  }

  /** `total_pages = (total_doctors + limit - 1) // limit`. */
  function TotalPages(total: nat, limit: nat): nat
    requires limit >= 1
  {
    (total + limit - 1) / limit
  }

  /** `total_pages` is the ceiling of `total / limit`: no page is empty, none is missing. */
  lemma TotalPagesIsCeiling(total: nat, limit: nat)
    requires limit >= 1
    ensures total == 0 ==> TotalPages(total, limit) == 0
    ensures total > 0 ==> (TotalPages(total, limit) - 1) * limit < total <= TotalPages(total, limit) * limit
  {
    var tp, r := TotalPages(total, limit), (total + limit - 1) % limit;
    assert tp * limit + r == total + limit - 1;
    assert (tp - 1) * limit == tp * limit - limit;
  }

  /** `has_next` says exactly that some listed doctor lies after the current page. */
  lemma HasNextIffMoreAfterPage(page: int, limit: nat, total: nat)
    requires page >= 1 && limit >= 1
    ensures page < TotalPages(total, limit) <==> page * limit < total
  {
    var tp := TotalPages(total, limit);
    TotalPagesIsCeiling(total, limit);
    if page < tp {
      MulMonotone(page, tp - 1, limit);
    } else {
      MulMonotone(tp, page, limit);
      MulMonotone(0, page, limit);
    }
  }

  /** 23 doctors at 10 a page: 3 pages, the last with no next. */
  lemma PaginationExample()
    ensures TotalPages(23, 10) == 3
    ensures 1 < TotalPages(23, 10) && 2 < TotalPages(23, 10) && !(3 < TotalPages(23, 10))
  {
  }

  /** Every listed position `i` appears on page `i / limit + 1`, which exists. */
  lemma EveryItemHasAPage(i: nat, limit: nat, total: nat)
    requires limit >= 1 && i < total
    ensures 1 <= i / limit + 1 <= TotalPages(total, limit)
    ensures SkipFor(i / limit + 1, limit) <= i < SkipFor(i / limit + 1, limit) + limit
  {
    var q := i / limit;
    assert q * limit + i % limit == i;
    assert SkipFor(q + 1, limit) == q * limit;
    HasNextIffMoreAfterPage(q + 1, limit, total) by {
      assert q * limit <= i;
    }
    if TotalPages(total, limit) < q + 1 {
      TotalPagesIsCeiling(total, limit);
      HasNextIffMoreAfterPage(q, limit, total);
    }
  }

  /** `$skip` followed by `$limit` is the slice `[skip, skip + limit)`, clipped to the stream. */
  lemma SkipThenLimit(docs: seq<Doc>, skip: nat, limit: nat, profiles: seq<DoctorProfile>)
    ensures Run([Skip(skip), Limit(limit)], profiles, docs)
         == docs[Min(skip, |docs|)..Min(skip + limit, |docs|)]
  {
    var rest := Apply(Skip(skip), profiles, docs);
    assert Run([Skip(skip), Limit(limit)], profiles, docs) == Run([Limit(limit)], profiles, rest);
    assert Run([Limit(limit)], profiles, rest) == Apply(Limit(limit), profiles, rest);
  }

  /** The part of the listing that page `page` shows. */
  function PageOf(listing: seq<DoctorSummary>, page: int, limit: int): seq<DoctorSummary>
    requires page >= 1 && limit >= 1
  {
    listing[Min(SkipFor(page, limit), |listing|)..Min(SkipFor(page, limit) + limit, |listing|)]
  }

  /**
   * A page holds at most `limit` summaries, the ones at positions
   * `SkipFor(page, limit)` onwards, and is full unless the listing ends on it.
   */
  lemma PageOfShows(listing: seq<DoctorSummary>, page: int, limit: int)
    requires page >= 1 && limit >= 1
    ensures |PageOf(listing, page, limit)| <= limit
    ensures forall i :: 0 <= i < |PageOf(listing, page, limit)| ==>
      SkipFor(page, limit) + i < |listing| && PageOf(listing, page, limit)[i] == listing[SkipFor(page, limit) + i]
    ensures SkipFor(page, limit) + limit <= |listing| ==> |PageOf(listing, page, limit)| == limit
  {
  }

  /** Filters that produce `listing`, followed by `$skip` and `$limit`, produce its slice. */
  lemma SkipLimitAfter(filters: seq<Stage>, profiles: seq<DoctorProfile>, docs: seq<Doc>,
                       listing: seq<DoctorSummary>, skip: nat, limit: nat)
    requires Run(filters, profiles, docs) == SummaryDocs(listing)
    ensures SummariesOf(Run(filters + [Skip(skip), Limit(limit)], profiles, docs))
         == listing[Min(skip, |listing|)..Min(skip + limit, |listing|)]
  {
    RunAppend(filters, [Skip(skip), Limit(limit)], profiles, docs);
    SkipThenLimit(SummaryDocs(listing), skip, limit, profiles);
    SummariesOfSlice(listing, Min(skip, |listing|), Min(skip + limit, |listing|));
  }

  /** The handler's pipeline yields the page's part of the listing. */
  lemma PageResult(users: seq<User>, profiles: seq<DoctorProfile>, specialty: Option<string>,
                   location: Option<string>, page: int, limit: int)
    requires page >= 1 && limit >= 1
    ensures SummariesOf(Run(FilterStages(specialty, location) + [Skip(SkipFor(page, limit)), Limit(limit)],
                            profiles, UserDocs(users)))
         == PageOf(Listing(users, profiles, specialty), page, limit)
  {
    var listing := Listing(users, profiles, specialty);
    var skip := SkipFor(page, limit);
    FilterStagesComputeListing(users, profiles, specialty, location);
    SkipLimitAfter(FilterStages(specialty, location), profiles, UserDocs(users), listing, skip, limit);
    assert PageOf(listing, page, limit) == listing[Min(skip, |listing|)..Min(skip + limit, |listing|)];
  }

  lemma SummariesOfSlice(ss: seq<DoctorSummary>, lo: nat, hi: nat)
    requires lo <= hi <= |ss|
    ensures SummariesOf(SummaryDocs(ss)[lo..hi]) == ss[lo..hi]
  {
    assert SummaryDocs(ss)[lo..hi] == SummaryDocs(ss[lo..hi]);
    SummariesOfSummaryDocs(ss[lo..hi]);
  }

  /**
   * The count pipeline (the same filters with `$count` in place of `$skip`
   * and `$limit`) yields the length of the whole listing.
   */
  lemma CountResult(users: seq<User>, profiles: seq<DoctorProfile>, specialty: Option<string>,
                    location: Option<string>)
    ensures TotalOf(Run(FilterStages(specialty, location) + [Count], profiles, UserDocs(users)))
         == |Listing(users, profiles, specialty)|
  {
    var filtered := Run(FilterStages(specialty, location), profiles, UserDocs(users));
    FilterStagesComputeListing(users, profiles, specialty, location);
    RunAppend(FilterStages(specialty, location), [Count], profiles, UserDocs(users));
    assert Run([Count], profiles, filtered) == Apply(Count, profiles, filtered);
    assert |filtered| == |Listing(users, profiles, specialty)|;
  }
}
