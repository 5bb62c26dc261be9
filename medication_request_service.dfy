/** The MedicationRequest service: the generic resource service over the
    MedicationRequest projection, and its search dispatch. */
module MedicationRequestService {
  import opened Wrappers
  import opened Text
  import opened Seqs
  import opened Fhir
  import opened Store
  import opened Precedence
  import opened Service
  import opened MedicationRequestMapper
  import opened MedicationRequestRepository

  const ResourceType := "MedicationRequest"

  datatype Criteria = Criteria(
    patient: Option<string>,
    requester: Option<string>,
    status: Option<string>,
    medication: Option<string>)

  /** The repository query a search runs. */
  datatype Query =
    | ByPatientAndStatus(patient: string, status: string)
    | ByPatient(patient: string)
    | ByRequester(requester: string)
    | ByStatus(status: string)
    | ByMedication(medication: string)
    | AllActive

  /** `searchMedicationRequests`' if/else chain. */
  function SearchPath(c: Criteria): Query {
    if Given(c.patient) && Given(c.status) then ByPatientAndStatus(c.patient.value, c.status.value)
    else if Given(c.patient) then ByPatient(c.patient.value)
    else if Given(c.requester) then ByRequester(c.requester.value)
    else if Given(c.status) then ByStatus(c.status.value)
    else if Given(c.medication) then ByMedication(c.medication.value)
    else AllActive
  }

  function Run(rows: seq<MedicationRequestRow>, q: Query): seq<MedicationRequestRow> {
    match q
    case ByPatientAndStatus(patient, status) => FindByPatientAndStatus(rows, patient, status)
    case ByPatient(patient) => FindByPatient(rows, patient)
    case ByRequester(requester) => FindByRequester(rows, requester)
    case ByStatus(status) => FindByStatus(rows, status)
    case ByMedication(medication) => FindByMedication(rows, medication)
    case AllActive => FindAllActive(rows)
  }

  function Search(rows: seq<MedicationRequestRow>, c: Criteria): seq<MedicationRequestRow> {
    Run(rows, SearchPath(c))
  }

  /** The precedence list: patient with status, patient, requester, status,
      medication; all active otherwise. */
  function Table(): seq<Rule<Criteria, Query>> {
    [ Rule((c: Criteria) => Given(c.patient) && Given(c.status),
           (c: Criteria) => ByPatientAndStatus(c.patient.GetOr(""), c.status.GetOr(""))),
      Rule((c: Criteria) => Given(c.patient), (c: Criteria) => ByPatient(c.patient.GetOr(""))),
      Rule((c: Criteria) => Given(c.requester), (c: Criteria) => ByRequester(c.requester.GetOr(""))),
      Rule((c: Criteria) => Given(c.status), (c: Criteria) => ByStatus(c.status.GetOr(""))),
      Rule((c: Criteria) => Given(c.medication), (c: Criteria) => ByMedication(c.medication.GetOr(""))) ]
  }

  /** The dispatch is exactly the first-match rule over the precedence list. */
  lemma SearchPathFollowsTable(c: Criteria)
    ensures SearchPath(c) == FirstMatch(Table(), c, AllActive)
  {
    var t := Table();
    if Given(c.patient) && Given(c.status) {
      assert FirstApplies(t, c, 0);
    } else if Given(c.patient) {
      assert FirstApplies(t, c, 1);
    } else if Given(c.requester) {
      assert FirstApplies(t, c, 2);
    } else if Given(c.status) {
      assert FirstApplies(t, c, 3);
    } else if Given(c.medication) {
      assert FirstApplies(t, c, 4);
    } else {
      assert forall j :: 0 <= j < |t| ==> !t[j].applies(c);
    }
  }

  /** A status alone chooses the status path exactly when neither a patient
      nor a requester is given; with a patient it narrows the patient search. */
  lemma StatusPathCondition(c: Criteria)
    ensures SearchPath(c).ByStatus? <==> !Given(c.patient) && !Given(c.requester) && Given(c.status)
    ensures Given(c.patient) && Given(c.status) ==>
      forall rows, e :: e in Search(rows, c) ==> e in FindByPatient(rows, c.patient.value)
  {
    if Given(c.patient) && Given(c.status) {
      forall rows ensures forall e :: e in Search(rows, c) ==> e in FindByPatient(rows, c.patient.value) {
        PatientAndStatusIsIntersection(rows, c.patient.value, c.status.value);
      }
    }
  }

  /** Every search path filters on `active`. */
  lemma SearchOnlyActive(rows: seq<MedicationRequestRow>, c: Criteria)
    ensures forall e :: e in Search(rows, c) ==> e in rows && e.active
  {
    var r := Search(rows, c);
    match SearchPath(c)
    case ByPatientAndStatus(patient, status) =>
      ExactlyMembers(r, rows, (e: MedicationRequestRow) =>
        e.active && e.columns.patientReference == Some(patient) && e.columns.status == Some(status));
    case ByPatient(patient) =>
      ExactlyMembers(r, rows, (e: MedicationRequestRow) => e.active && e.columns.patientReference == Some(patient));
    case ByRequester(requester) =>
      ExactlyMembers(r, rows, (e: MedicationRequestRow) => e.active && e.columns.requesterReference == Some(requester));
    case ByStatus(status) =>
      ExactlyMembers(r, rows, (e: MedicationRequestRow) => e.active && e.columns.status == Some(status));
    case ByMedication(medication) =>
      ExactlyMembers(r, rows, (e: MedicationRequestRow) => e.active && e.columns.medicationCode == Some(medication));
    case AllActive =>
      ExactlyMembers(r, rows, (e: MedicationRequestRow) => e.active);
  }

  function Mapper(codec: Codec<MedicationRequest>): (Resource<MedicationRequest>, Time) -> MedicationRequestRow {
    (d: Resource<MedicationRequest>, now: Time) => Project(codec.encode, d, now)
  }

  /** Updating a soft-deleted request makes it active again: the projection
      sets `active` to true and update does not override it. */
  lemma UpdateReactivates(codec: Codec<MedicationRequest>, rows: seq<MedicationRequestRow>, id: string,
                          d: Resource<MedicationRequest>, now: Time)
    requires Stored(rows) && FindByFhirId(rows, id).Some?
    ensures var existing := FindByFhirId(rows, id).value;
      var version := (existing.versionId.value + 1) as nat;
      var stamped := StampMeta(d.(id := Some(id)), version, now);
      var after := Upsert(rows, UpdatedRow(Mapper(codec), existing, stamped, version, now));
      FindByFhirId(after, id).Some? && FindByFhirId(after, id).value.active
  {
    var existing := FindByFhirId(rows, id).value;
    FoundStorable(rows, id);
    var version := (existing.versionId.value + 1) as nat;
    var stamped := StampMeta(d.(id := Some(id)), version, now);
    assert Mapper(codec)(stamped, now) == Project(codec.encode, stamped, now);
    UpdatedRowFound(Mapper(codec), rows, id, stamped, version, now);
  }

  /** The MedicationRequest instance of the resource service. */
  method NewService(codec: Codec<MedicationRequest>, validate: Resource<MedicationRequest> -> ValidationResult)
    returns (s: ResourceService<MedicationRequest, MedicationRequestColumns, Criteria>)
    ensures fresh(s) && fresh(s.repository) && s.Valid() && s.repository.rows == []
    ensures s.resourceType == ResourceType && s.codec == codec && s.validate == validate
    ensures forall d, now :: s.mapper(d, now) == Project(codec.encode, d, now)
    ensures forall rows, c :: s.search(rows, c) == Search(rows, c)
  {
    s := new ResourceService(ResourceType, codec, validate, Mapper(codec), Search);
  }
}
