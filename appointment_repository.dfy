/** The `appointments` table's queries. Every list finder returns active rows
    only, ordered by start time (nulls last, as PostgreSQL sorts them). */
module AppointmentRepository {
  import opened Wrappers
  import opened Seqs
  import opened Fhir
  import opened Store
  import opened AppointmentMapper

  function StartKey(e: AppointmentRow): Option<int> {
    e.columns.startTime
  }

  /** `order by startTime`. */
  ghost predicate ByStart(r: seq<AppointmentRow>) {
    SortedBy(r, ByKey(StartKey, AscNullsLast))
  }

  /** `where ... and active = true order by startTime`. */
  function ActiveByStart(rows: seq<AppointmentRow>, p: AppointmentRow -> bool): (r: seq<AppointmentRow>)
    ensures Exactly(r, rows, (e: AppointmentRow) => e.active && p(e)) && ByStart(r)
  {
    ByKeyPreorder(StartKey, AscNullsLast);
    SelectSorted(rows, (e: AppointmentRow) => e.active && p(e), ByKey(StartKey, AscNullsLast))
  }

  /** With a system, both system and value must match; without one, the value
      alone; without a value, nothing is returned. */
  function FindByIdentifier(rows: seq<AppointmentRow>, system: Option<string>, value: Option<string>): (r: seq<AppointmentRow>)
    ensures value.None? ==> r == []
    ensures value.Some? && system.Some? ==> Exactly(r, rows, (e: AppointmentRow) =>
      e.active && e.columns.identifierSystem == system && e.columns.identifierValue == value)
    ensures value.Some? && system.None? ==> Exactly(r, rows, (e: AppointmentRow) => e.active && e.columns.identifierValue == value)
  {
    IdentifierRows(rows, (c: AppointmentColumns) => c.identifierSystem, (c: AppointmentColumns) => c.identifierValue, system, value, true)
  }

  function FindByPatient(rows: seq<AppointmentRow>, patient: string): (r: seq<AppointmentRow>)
    ensures Exactly(r, rows, (e: AppointmentRow) => e.active && e.columns.patientReference == Some(patient)) && ByStart(r)
  {
    ActiveByStart(rows, (e: AppointmentRow) => e.columns.patientReference == Some(patient))
  }

  function FindByPractitioner(rows: seq<AppointmentRow>, practitioner: string): (r: seq<AppointmentRow>)
    ensures Exactly(r, rows, (e: AppointmentRow) => e.active && e.columns.practitionerReference == Some(practitioner)) && ByStart(r)
  {
    ActiveByStart(rows, (e: AppointmentRow) => e.columns.practitionerReference == Some(practitioner))
  }

  function FindByStatus(rows: seq<AppointmentRow>, status: string): (r: seq<AppointmentRow>)
    ensures Exactly(r, rows, (e: AppointmentRow) => e.active && e.columns.status == Some(status)) && ByStart(r)
  {
    ActiveByStart(rows, (e: AppointmentRow) => e.columns.status == Some(status))
  }

  /** The start time lies within the inclusive bounds that are given; a null
      start time is within no bound. */
  predicate InRange(t: Option<Time>, start: Option<Time>, end: Option<Time>) {
    t.Some? && (start.Some? ==> start.value <= t.value) && (end.Some? ==> t.value <= end.value)
  }

  /** Inclusive bounds, one-sided when one bound is null, empty when both are. */
  function FindByDateRange(rows: seq<AppointmentRow>, start: Option<Time>, end: Option<Time>): (r: seq<AppointmentRow>)
    ensures start.None? && end.None? ==> r == []
    ensures start.Some? || end.Some? ==>
      Exactly(r, rows, (e: AppointmentRow) => e.active && InRange(e.columns.startTime, start, end)) && ByStart(r)
  {
    if start.Some? && end.Some? then
      ActiveByStart(rows, (e: AppointmentRow) => e.columns.startTime.Some? && start.value <= e.columns.startTime.value && e.columns.startTime.value <= end.value)
    else if start.Some? then
      ActiveByStart(rows, (e: AppointmentRow) => e.columns.startTime.Some? && start.value <= e.columns.startTime.value)
    else if end.Some? then
      ActiveByStart(rows, (e: AppointmentRow) => e.columns.startTime.Some? && e.columns.startTime.value <= end.value)
    else []
  }

  function FindByPatientAndStatus(rows: seq<AppointmentRow>, patient: string, status: string): (r: seq<AppointmentRow>)
    ensures Exactly(r, rows, (e: AppointmentRow) => e.active && e.columns.patientReference == Some(patient) && e.columns.status == Some(status))
    ensures ByStart(r)
  {
    ActiveByStart(rows, (e: AppointmentRow) => e.columns.patientReference == Some(patient) && e.columns.status == Some(status))
  }

  function FindBySpecialty(rows: seq<AppointmentRow>, specialty: string): (r: seq<AppointmentRow>)
    ensures Exactly(r, rows, (e: AppointmentRow) => e.active && e.columns.specialtyCode == Some(specialty)) && ByStart(r)
  {
    ActiveByStart(rows, (e: AppointmentRow) => e.columns.specialtyCode == Some(specialty))
  }

  function FindAllActive(rows: seq<AppointmentRow>): (r: seq<AppointmentRow>)
    ensures Exactly(r, rows, (e: AppointmentRow) => e.active) && ByStart(r)
  {
    ActiveByStart(rows, (e: AppointmentRow) => true)
  }

  /** A soft-deleted appointment drops out of every list finder: in particular
      it is no longer among the active rows. */
  lemma SoftDeletedLeavesAllActive(rows: seq<AppointmentRow>, id: string, now: Time)
    requires Stored(rows)
    ensures forall e :: e in FindAllActive(MarkDeleted(rows, id, now)) ==> e.fhirId != Some(id)
    ensures forall e :: e in FindAllActive(rows) && e.fhirId != Some(id) ==> e in FindAllActive(MarkDeleted(rows, id, now))
  {
    var after := MarkDeleted(rows, id, now);
    ExactlyMembers(FindAllActive(after), after, (e: AppointmentRow) => e.active);
    ExactlyMembers(FindAllActive(rows), rows, (e: AppointmentRow) => e.active);
    forall e | e in FindAllActive(rows) && e.fhirId != Some(id) ensures e in FindAllActive(after) {
      var k :| 0 <= k < |rows| && rows[k] == e;
      assert after[k] == e;
    }
  }
}
