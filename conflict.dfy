/**
 * The conflict query of appointment booking, read literally. Its `$or` has
 * three sub-documents; each is a Python dict display, so the third one, which
 * names `appointment_date` twice, keeps only the entry written last. The
 * lemmas below work out what the query then accepts, compare it with
 * half-open interval overlap, and show where the two differ.
 */
module Conflict {
  import opened Records

  /** The two document fields the query constrains. */
  datatype Field = AppointmentDate | EndTime

  /** The comparison operators the query uses, each with its bound. */
  datatype Cond = Lt(bound: Instant) | Lte(bound: Instant) | Gt(bound: Instant) | Gte(bound: Instant)

  predicate Holds(c: Cond, v: Instant) {
    match c
    case Lt(b) => v < b
    case Lte(b) => v <= b
    case Gt(b) => v > b
    case Gte(b) => v >= b
  }

  function FieldOf(a: Appointment, f: Field): Instant {
    match f
    case AppointmentDate => a.start
    case EndTime => a.end
  }

  /**
   * A Python dict display `{k1: v1, k2: v2, ...}`: entries are stored left to
   * right, so a key written twice keeps the value written last.
   */
  function DictDisplay(entries: seq<(Field, Cond)>): map<Field, Cond> {
    if entries == [] then map[]
    else DictDisplay(entries[..|entries| - 1])[entries[|entries| - 1].0 := entries[|entries| - 1].1]
  }

  /** The dict holds exactly the keys written in it. */
  lemma {:induction false} DictDisplayKeys(entries: seq<(Field, Cond)>, f: Field)
    ensures f in DictDisplay(entries) <==> exists k :: 0 <= k < |entries| && entries[k].0 == f
  {
    if entries != [] {
      var front := entries[..|entries| - 1];
      DictDisplayKeys(front, f);
      assert forall k :: 0 <= k < |front| ==> front[k] == entries[k];
    }
  }

  /** A key written several times holds the value of its last entry. */
  lemma {:induction false} DictDisplayLastWins(entries: seq<(Field, Cond)>, k: int)
    requires 0 <= k < |entries| && LastOfKey(entries, k)
    ensures entries[k].0 in DictDisplay(entries)
    ensures DictDisplay(entries)[entries[k].0] == entries[k].1
  {
    var front := entries[..|entries| - 1];
    if k < |entries| - 1 {
      assert front[k] == entries[k];
      assert LastOfKey(front, k);
      DictDisplayLastWins(front, k);
    }
  }

  /** No entry after position `k` repeats its key. */
  predicate LastOfKey(entries: seq<(Field, Cond)>, k: int)
    requires 0 <= k < |entries|
  {
    forall j :: k < j < |entries| ==> entries[j].0 != entries[k].0
  }

  /** A stored sub-document matches when every condition it holds is met. */
  predicate MatchesClause(a: Appointment, clause: map<Field, Cond>) {
    && (AppointmentDate in clause ==> Holds(clause[AppointmentDate], a.start))
    && (EndTime in clause ==> Holds(clause[EndTime], a.end))
  }

  /** The three `$or` alternatives of app.py:407-420, entry by entry as written. */
  function WrittenClauses(start: Instant, end: Instant): seq<seq<(Field, Cond)>> {
    [ [(AppointmentDate, Lte(start)), (EndTime, Gt(start))],
      [(AppointmentDate, Lt(end)), (EndTime, Gte(end))],
      [(AppointmentDate, Gte(start)), (AppointmentDate, Lt(end))] ]
  }

  /** The statuses the `$nin` excludes. */
  const ExcludedStatuses: seq<string> := ["cancelled", "no_show"]

  /** An appointment whose status the query does not exclude. */
  predicate Live(status: string) {
    status !in ExcludedStatuses
  }

  /**
   * The conflict filter: same doctor, a live status, and some `$or`
   * alternative matching, where each alternative is the dict Python builds.
   */
  predicate Matches(a: Appointment, doctorId: Id, start: Instant, end: Instant) {
    var clauses := WrittenClauses(start, end);
    && a.doctorId == doctorId
    && Live(a.status)
    && exists k :: 0 <= k < |clauses| && MatchesClause(a, DictDisplay(clauses[k]))
  }

  /**
   * The dicts Python builds for the three alternatives: the first two keep
   * both bounds, the third holds only its last entry.
   */
  lemma BuiltDicts(start: Instant, end: Instant)
    ensures DictDisplay(WrittenClauses(start, end)[0]) == map[AppointmentDate := Lte(start), EndTime := Gt(start)]
    ensures DictDisplay(WrittenClauses(start, end)[1]) == map[AppointmentDate := Lt(end), EndTime := Gte(end)]
    ensures DictDisplay(WrittenClauses(start, end)[2]) == map[AppointmentDate := Lt(end)]
  {
    var clauses := WrittenClauses(start, end);
    forall n, f | 0 <= n < 3
      ensures f in DictDisplay(clauses[n]) <==> exists k :: 0 <= k < |clauses[n]| && clauses[n][k].0 == f
    {
      DictDisplayKeys(clauses[n], f);
    }
    DictDisplayLastWins(clauses[0], 0);
    DictDisplayLastWins(clauses[0], 1);
    DictDisplayLastWins(clauses[1], 0);
    DictDisplayLastWins(clauses[1], 1);
    DictDisplayLastWins(clauses[2], 1);
    assert clauses[2][0].0 == AppointmentDate;
  }

  /**
   * With a positive duration the whole `$or` collapses to "the existing
   * appointment starts before the proposed end": alternatives 1 and 2 both
   * imply it, and the duplicate key made the third say exactly that.
   */
  lemma QueryReduces(a: Appointment, doctorId: Id, start: Instant, end: Instant)
    requires start < end
    ensures Matches(a, doctorId, start, end) <==>
      a.doctorId == doctorId && Live(a.status) && a.start < end
  {
    var clauses := WrittenClauses(start, end);
    BuiltDicts(start, end);
    if a.start < end {
      assert MatchesClause(a, DictDisplay(clauses[2]));
    }
  }

  /** Half-open intervals `[s1, e1)` and `[s2, e2)` share an instant. */
  predicate Overlaps(s1: Instant, e1: Instant, s2: Instant, e2: Instant) {
    s1 < e2 && s2 < e1
  }

  /** Soundness: every live appointment of the doctor that overlaps the proposed slot is flagged. */
  lemma OverlapIsFlagged(a: Appointment, doctorId: Id, start: Instant, end: Instant)
    requires start < end
    requires a.doctorId == doctorId && Live(a.status)
    requires Overlaps(a.start, a.end, start, end)
    ensures Matches(a, doctorId, start, end)
  {
    QueryReduces(a, doctorId, start, end);
  }

  /** Appointments of another doctor, or cancelled or missed ones, never conflict. */
  lemma OnlyLiveSameDoctorConflicts(a: Appointment, doctorId: Id, start: Instant, end: Instant)
    requires a.doctorId != doctorId || a.status == "cancelled" || a.status == "no_show"
    ensures !Matches(a, doctorId, start, end)
  {
  }

  /** An appointment starting at or after the proposed end is never flagged. */
  lemma LaterAppointmentIsFree(a: Appointment, doctorId: Id, start: Instant, end: Instant)
    requires start < end
    requires end <= a.start
    ensures !Matches(a, doctorId, start, end)
  {
    QueryReduces(a, doctorId, start, end);
  }

  /**
   * Where the query and half-open overlap part: a live appointment of the
   * same doctor that ends no later than the proposed start does not overlap
   * the proposed slot, yet it is flagged; back-to-back bookings are refused.
   */
  lemma EarlierAppointmentIsFlagged(a: Appointment, doctorId: Id, start: Instant, end: Instant)
    requires start < end
    requires a.doctorId == doctorId && Live(a.status)
    requires a.start < a.end <= start
    ensures Matches(a, doctorId, start, end)
    ensures !Overlaps(a.start, a.end, start, end)
  {
    QueryReduces(a, doctorId, start, end);
  }

  // ---------------------------------------------------------------------
  // The clauses read as their author wrote them
  // ---------------------------------------------------------------------

  /** A clause read as the conjunction of all its entries, repeated keys included. */
  predicate MatchesAllEntries(a: Appointment, entries: seq<(Field, Cond)>) {
    forall k :: 0 <= k < |entries| ==> Holds(entries[k].1, FieldOf(a, entries[k].0))
  }

  /** The query if the third alternative kept both of its bounds. */
  predicate MatchesIntended(a: Appointment, doctorId: Id, start: Instant, end: Instant) {
    var clauses := WrittenClauses(start, end);
    && a.doctorId == doctorId
    && Live(a.status)
    && exists k :: 0 <= k < |clauses| && MatchesAllEntries(a, clauses[k])
  }

  /**
   * Read entry by entry, the three alternatives are exactly half-open overlap
   * for appointments of positive length: the query its text describes.
   */
  lemma IntendedIsOverlap(a: Appointment, doctorId: Id, start: Instant, end: Instant)
    requires start < end && a.start < a.end
    ensures MatchesIntended(a, doctorId, start, end) <==>
      a.doctorId == doctorId && Live(a.status) && Overlaps(a.start, a.end, start, end)
  {
    var clauses := WrittenClauses(start, end);
    if Overlaps(a.start, a.end, start, end) {
      if a.start <= start {
        assert MatchesAllEntries(a, clauses[0]);
      } else {
        assert MatchesAllEntries(a, clauses[2]);
      }
    }
    if exists k :: 0 <= k < |clauses| && MatchesAllEntries(a, clauses[k]) {
      var k :| 0 <= k < |clauses| && MatchesAllEntries(a, clauses[k]);
      assert Holds(clauses[k][0].1, FieldOf(a, clauses[k][0].0));
      assert Holds(clauses[k][1].1, FieldOf(a, clauses[k][1].0));
    }
  }

  /**
   * With 10:00 as 36000 seconds: an existing booking
   * [10:00, 10:30) against a proposed [10:30, 11:00) is adjacent, which the
   * text's reading accepts and the query as Python builds it refuses; against
   * [10:15, 10:45) both refuse.
   */
  lemma AdjacentSlotExample(a: Appointment)
    requires a.start == 36000 && a.end == 37800 && a.doctorId == 7 && a.status == "confirmed"
    ensures Matches(a, 7, 37800, 39600)
    ensures !MatchesIntended(a, 7, 37800, 39600)
    ensures Matches(a, 7, 36900, 38700) && MatchesIntended(a, 7, 36900, 38700)
  {
    EarlierAppointmentIsFlagged(a, 7, 37800, 39600);
    IntendedIsOverlap(a, 7, 37800, 39600);
    OverlapIsFlagged(a, 7, 36900, 38700);
    IntendedIsOverlap(a, 7, 36900, 38700);
  }

  // ---------------------------------------------------------------------
  // The schedule invariant the check protects
  // ---------------------------------------------------------------------

  /** No two live appointments of one doctor overlap. */
  ghost predicate NoLiveOverlap(apps: seq<Appointment>) {
    forall i, j :: 0 <= i < j < |apps| && apps[i].doctorId == apps[j].doctorId
      && Live(apps[i].status) && Live(apps[j].status)
      ==> !Overlaps(apps[i].start, apps[i].end, apps[j].start, apps[j].end)
  }

  /**
   * Adding an appointment of positive length that the query flags against
   * no stored appointment keeps the schedule free of overlaps.
   */
  lemma {:induction false} UnflaggedInsertKeepsNoOverlap(apps: seq<Appointment>, a: Appointment)
    requires NoLiveOverlap(apps)
    requires a.start < a.end
    requires forall i :: 0 <= i < |apps| ==> !Matches(apps[i], a.doctorId, a.start, a.end)
    ensures NoLiveOverlap(apps + [a])
  {
    var all := apps + [a];
    forall i, j | 0 <= i < j < |all| && all[i].doctorId == all[j].doctorId
      && Live(all[i].status) && Live(all[j].status)
      ensures !Overlaps(all[i].start, all[i].end, all[j].start, all[j].end)
    {
      if j == |apps| {
        if Overlaps(all[i].start, all[i].end, a.start, a.end) {
          OverlapIsFlagged(apps[i], a.doctorId, a.start, a.end);
          assert false;
        }
      } else {
        assert all[i] == apps[i] && all[j] == apps[j];
      }
    }
  }
}
