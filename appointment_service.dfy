/** The Appointment service: the generic resource service over the
    Appointment projection, and its search dispatch. */
module AppointmentService {
  import opened Wrappers
  import opened Text
  import opened Seqs
  import opened Fhir
  import opened Store
  import opened Precedence
  import opened Service
  import opened AppointmentMapper
  import opened AppointmentRepository

  const ResourceType := "Appointment"

  datatype Criteria = Criteria(
    identifier: Option<string>,
    patient: Option<string>,
    practitioner: Option<string>,
    status: Option<string>,
    dateStart: Option<Time>,
    dateEnd: Option<Time>,
    specialty: Option<string>)

  /** The repository query a search runs. */
  datatype Query =
    | ByIdentifier(value: string)
    | ByPatientAndStatus(patient: string, status: string)
    | ByPatient(patient: string)
    | ByPractitioner(practitioner: string)
    | ByStatus(status: string)
    | ByDateRange(start: Option<Time>, end: Option<Time>)
    | BySpecialty(specialty: string)
    | AllActive

  /** `searchAppointments`' if/else chain. */
  function SearchPath(c: Criteria): Query {
    if Given(c.identifier) then ByIdentifier(c.identifier.value)
    else if Given(c.patient) then
      if Given(c.status) then ByPatientAndStatus(c.patient.value, c.status.value) else ByPatient(c.patient.value)
    else if Given(c.practitioner) then ByPractitioner(c.practitioner.value)
    else if Given(c.status) then ByStatus(c.status.value)
    else if c.dateStart.Some? || c.dateEnd.Some? then ByDateRange(c.dateStart, c.dateEnd)
    else if Given(c.specialty) then BySpecialty(c.specialty.value)
    else AllActive
  }

  /** The identifier query always passes a null system. */
  function Run(rows: seq<AppointmentRow>, q: Query): seq<AppointmentRow> {
    match q
    case ByIdentifier(value) => FindByIdentifier(rows, None, Some(value))
    case ByPatientAndStatus(patient, status) => FindByPatientAndStatus(rows, patient, status)
    case ByPatient(patient) => FindByPatient(rows, patient)
    case ByPractitioner(practitioner) => FindByPractitioner(rows, practitioner)
    case ByStatus(status) => FindByStatus(rows, status)
    case ByDateRange(start, end) => FindByDateRange(rows, start, end)
    case BySpecialty(specialty) => FindBySpecialty(rows, specialty)
    case AllActive => FindAllActive(rows)
  }

  function Search(rows: seq<AppointmentRow>, c: Criteria): seq<AppointmentRow> {
    Run(rows, SearchPath(c))
  }

  /** The precedence list: identifier, patient (with status when given),
      practitioner, status, date range, specialty; all active otherwise. */
  function Table(): seq<Rule<Criteria, Query>> {
    [ Rule((c: Criteria) => Given(c.identifier), (c: Criteria) => ByIdentifier(c.identifier.GetOr(""))),
      Rule((c: Criteria) => Given(c.patient), (c: Criteria) => if Given(c.status) then ByPatientAndStatus(c.patient.GetOr(""), c.status.GetOr(""))
                                        else ByPatient(c.patient.GetOr(""))),
      Rule((c: Criteria) => Given(c.practitioner), (c: Criteria) => ByPractitioner(c.practitioner.GetOr(""))),
      Rule((c: Criteria) => Given(c.status), (c: Criteria) => ByStatus(c.status.GetOr(""))),
      Rule((c: Criteria) => c.dateStart.Some? || c.dateEnd.Some?, (c: Criteria) => ByDateRange(c.dateStart, c.dateEnd)),
      Rule((c: Criteria) => Given(c.specialty), (c: Criteria) => BySpecialty(c.specialty.GetOr(""))) ]
  }

  /** The dispatch is exactly the first-match rule over the precedence list:
      the first given criterion chooses the query and the rest are ignored. */
  lemma SearchPathFollowsTable(c: Criteria)
    ensures SearchPath(c) == FirstMatch(Table(), c, AllActive)
  {
    var t := Table();
    if Given(c.identifier) {
      assert FirstApplies(t, c, 0);
    } else if Given(c.patient) {
      assert FirstApplies(t, c, 1);
    } else if Given(c.practitioner) {
      assert FirstApplies(t, c, 2);
    } else if Given(c.status) {
      assert FirstApplies(t, c, 3);
    } else if c.dateStart.Some? || c.dateEnd.Some? {
      assert FirstApplies(t, c, 4);
    } else if Given(c.specialty) {
      assert FirstApplies(t, c, 5);
    } else {
      assert forall j :: 0 <= j < |t| ==> !t[j].applies(c);
    }
  }

  /** Every search path filters on `active`: a soft-deleted appointment is
      never in a search result, although it can still be read by id. */
  lemma SearchOnlyActive(rows: seq<AppointmentRow>, c: Criteria)
    ensures forall e :: e in Search(rows, c) ==> e in rows && e.active
  {
    var r := Search(rows, c);
    match SearchPath(c)
    case ByIdentifier(value) =>
      ExactlyMembers(r, rows, (e: AppointmentRow) => e.active && e.columns.identifierValue == Some(value));
    case ByPatientAndStatus(patient, status) =>
      ExactlyMembers(r, rows, (e: AppointmentRow) => e.active && e.columns.patientReference == Some(patient) && e.columns.status == Some(status));
    case ByPatient(patient) =>
      ExactlyMembers(r, rows, (e: AppointmentRow) => e.active && e.columns.patientReference == Some(patient));
    case ByPractitioner(practitioner) =>
      ExactlyMembers(r, rows, (e: AppointmentRow) => e.active && e.columns.practitionerReference == Some(practitioner));
    case ByStatus(status) =>
      ExactlyMembers(r, rows, (e: AppointmentRow) => e.active && e.columns.status == Some(status));
    case ByDateRange(start, end) =>
      if start.Some? || end.Some? {
        ExactlyMembers(r, rows, (e: AppointmentRow) => e.active && InRange(e.columns.startTime, start, end));
      }
    case BySpecialty(specialty) =>
      ExactlyMembers(r, rows, (e: AppointmentRow) => e.active && e.columns.specialtyCode == Some(specialty));
    case AllActive =>
      ExactlyMembers(r, rows, (e: AppointmentRow) => e.active);
  }

  function Mapper(codec: Codec<Appointment>): (Resource<Appointment>, Time) -> AppointmentRow {
    (d: Resource<Appointment>, now: Time) => Project(codec.encode, d, now)
  }

  /** Updating a soft-deleted appointment makes it active again: the projection
      sets `active` to true and update does not override it. */
  lemma UpdateReactivates(codec: Codec<Appointment>, rows: seq<AppointmentRow>, id: string, d: Resource<Appointment>, now: Time)
    requires Stored(rows) && FindByFhirId(rows, id).Some?
    ensures var existing := FindByFhirId(rows, id).value;
      var version := (existing.versionId.value + 1) as nat;
      var stamped := StampMeta(d.(id := Some(id)), version, now);
      var after := Upsert(rows, UpdatedRow(Mapper(codec), existing, stamped, version, now));
      FindByFhirId(after, id).Some? && FindByFhirId(after, id).value.active
  {
    var existing := FindByFhirId(rows, id).value;
    FoundStorable(rows, id);
    var version := (existing.versionId.value + 1) as nat;
    var stamped := StampMeta(d.(id := Some(id)), version, now);
    assert Mapper(codec)(stamped, now) == Project(codec.encode, stamped, now);
    UpdatedRowFound(Mapper(codec), rows, id, stamped, version, now);
  }

  /** The Appointment instance of the resource service. */
  method NewService(codec: Codec<Appointment>, validate: Resource<Appointment> -> ValidationResult)
    returns (s: ResourceService<Appointment, AppointmentColumns, Criteria>)
    ensures fresh(s) && fresh(s.repository) && s.Valid() && s.repository.rows == []
    ensures s.resourceType == ResourceType && s.codec == codec && s.validate == validate
    ensures forall d, now :: s.mapper(d, now) == Project(codec.encode, d, now)
    ensures forall rows, c :: s.search(rows, c) == Search(rows, c)
  {
    s := new ResourceService(ResourceType, codec, validate, Mapper(codec), Search);
  }
}
