/** The `medication_requests` table's queries. Every list finder returns
    active rows only, the most recently authored first (nulls first, as
    PostgreSQL sorts them in descending order). */
module MedicationRequestRepository {
  import opened Wrappers
  import opened Seqs
  import opened Fhir
  import opened Store
  import opened MedicationRequestMapper

  function AuthoredKey(e: MedicationRequestRow): Option<int> {
    e.columns.authoredOn
  }

  /** `order by authoredOn desc`. */
  ghost predicate ByAuthoredDesc(r: seq<MedicationRequestRow>) {
    SortedBy(r, ByKey(AuthoredKey, DescNullsFirst))
  }

  /** `where ... and active = true order by authoredOn desc`. */
  function ActiveByAuthored(rows: seq<MedicationRequestRow>, p: MedicationRequestRow -> bool): (r: seq<MedicationRequestRow>)
    ensures Exactly(r, rows, (e: MedicationRequestRow) => e.active && p(e)) && ByAuthoredDesc(r)
  {
    DescNullsFirstPreorder();
    ByKeyPreorder(AuthoredKey, DescNullsFirst);
    SelectSorted(rows, (e: MedicationRequestRow) => e.active && p(e), ByKey(AuthoredKey, DescNullsFirst))
  }

  function FindByPatient(rows: seq<MedicationRequestRow>, patient: string): (r: seq<MedicationRequestRow>)
    ensures Exactly(r, rows, (e: MedicationRequestRow) => e.active && e.columns.patientReference == Some(patient)) && ByAuthoredDesc(r)
  {
    ActiveByAuthored(rows, (e: MedicationRequestRow) => e.columns.patientReference == Some(patient))
  }

  function FindByRequester(rows: seq<MedicationRequestRow>, requester: string): (r: seq<MedicationRequestRow>)
    ensures Exactly(r, rows, (e: MedicationRequestRow) => e.active && e.columns.requesterReference == Some(requester)) && ByAuthoredDesc(r)
  {
    ActiveByAuthored(rows, (e: MedicationRequestRow) => e.columns.requesterReference == Some(requester))
  }

  function FindByStatus(rows: seq<MedicationRequestRow>, status: string): (r: seq<MedicationRequestRow>)
    ensures Exactly(r, rows, (e: MedicationRequestRow) => e.active && e.columns.status == Some(status)) && ByAuthoredDesc(r)
  {
    ActiveByAuthored(rows, (e: MedicationRequestRow) => e.columns.status == Some(status))
  }

  function FindByMedication(rows: seq<MedicationRequestRow>, medicationCode: string): (r: seq<MedicationRequestRow>)
    ensures Exactly(r, rows, (e: MedicationRequestRow) => e.active && e.columns.medicationCode == Some(medicationCode)) && ByAuthoredDesc(r)
  {
    ActiveByAuthored(rows, (e: MedicationRequestRow) => e.columns.medicationCode == Some(medicationCode))
  }

  function FindByPatientAndStatus(rows: seq<MedicationRequestRow>, patient: string, status: string): (r: seq<MedicationRequestRow>)
    ensures Exactly(r, rows, (e: MedicationRequestRow) =>
      e.active && e.columns.patientReference == Some(patient) && e.columns.status == Some(status))
    ensures ByAuthoredDesc(r)
  {
    ActiveByAuthored(rows, (e: MedicationRequestRow) => e.columns.patientReference == Some(patient) && e.columns.status == Some(status))
  }

  function FindAllActive(rows: seq<MedicationRequestRow>): (r: seq<MedicationRequestRow>)
    ensures Exactly(r, rows, (e: MedicationRequestRow) => e.active) && ByAuthoredDesc(r)
  {
    ActiveByAuthored(rows, (e: MedicationRequestRow) => true)
  }

  /** The patient-and-status finder is the conjunction of the two single
      finders: a request is in its result exactly when it is in both. */
  lemma PatientAndStatusIsIntersection(rows: seq<MedicationRequestRow>, patient: string, status: string)
    ensures forall e :: e in FindByPatientAndStatus(rows, patient, status) <==>
      e in FindByPatient(rows, patient) && e in FindByStatus(rows, status)
  {
    ExactlyMembers(FindByPatientAndStatus(rows, patient, status), rows, (e: MedicationRequestRow) =>
      e.active && e.columns.patientReference == Some(patient) && e.columns.status == Some(status));
    ExactlyMembers(FindByPatient(rows, patient), rows, (e: MedicationRequestRow) => e.active && e.columns.patientReference == Some(patient));
    ExactlyMembers(FindByStatus(rows, status), rows, (e: MedicationRequestRow) => e.active && e.columns.status == Some(status));
  }
}
