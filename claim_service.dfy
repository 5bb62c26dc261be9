/** The Claim service: the generic resource service over the Claim
    projection, and its search dispatch. */
module ClaimService {
  import opened Wrappers
  import opened Text
  import opened Seqs
  import opened Fhir
  import opened Store
  import opened Precedence
  import opened Service
  import opened ClaimMapper
  import opened ClaimRepository

  const ResourceType := "Claim"

  datatype Criteria = Criteria(
    identifierSystem: Option<string>,
    identifier: Option<string>,
    patient: Option<string>,
    provider: Option<string>,
    insurer: Option<string>,
    status: Option<string>,
    use: Option<string>)

  /** The repository query a search runs. */
  datatype Query =
    | ByIdentifier(system: Option<string>, value: string)
    | ByPatient(patient: string)
    | ByProvider(provider: string)
    | ByInsurer(insurer: string)
    | ByStatus(status: string)
    | ByUse(use: string)
    | AllActive

  /** `searchClaims`' if/else chain; the identifier system is passed through
      as given. */
  function SearchPath(c: Criteria): Query {
    if Given(c.identifier) then ByIdentifier(c.identifierSystem, c.identifier.value)
    else if Given(c.patient) then ByPatient(c.patient.value)
    else if Given(c.provider) then ByProvider(c.provider.value)
    else if Given(c.insurer) then ByInsurer(c.insurer.value)
    else if Given(c.status) then ByStatus(c.status.value)
    else if Given(c.use) then ByUse(c.use.value)
    else AllActive
  }

  function Run(rows: seq<ClaimRow>, q: Query): seq<ClaimRow> {
    match q
    case ByIdentifier(system, value) => FindByIdentifier(rows, system, Some(value))
    case ByPatient(patient) => FindByPatient(rows, patient)
    case ByProvider(provider) => FindByProvider(rows, provider)
    case ByInsurer(insurer) => FindByInsurer(rows, insurer)
    case ByStatus(status) => FindByStatus(rows, status)
    case ByUse(use) => FindByUse(rows, use)
    case AllActive => FindAllActive(rows)
  }

  function Search(rows: seq<ClaimRow>, c: Criteria): seq<ClaimRow> {
    Run(rows, SearchPath(c))
  }

  /** The precedence list: identifier, patient, provider, insurer, status,
      use; all active otherwise. */
  function Table(): seq<Rule<Criteria, Query>> {
    [ Rule((c: Criteria) => Given(c.identifier), (c: Criteria) => ByIdentifier(c.identifierSystem, c.identifier.GetOr(""))),
      Rule((c: Criteria) => Given(c.patient), (c: Criteria) => ByPatient(c.patient.GetOr(""))),
      Rule((c: Criteria) => Given(c.provider), (c: Criteria) => ByProvider(c.provider.GetOr(""))),
      Rule((c: Criteria) => Given(c.insurer), (c: Criteria) => ByInsurer(c.insurer.GetOr(""))),
      Rule((c: Criteria) => Given(c.status), (c: Criteria) => ByStatus(c.status.GetOr(""))),
      Rule((c: Criteria) => Given(c.use), (c: Criteria) => ByUse(c.use.GetOr(""))) ]
  }

  /** The dispatch is exactly the first-match rule over the precedence list. */
  lemma SearchPathFollowsTable(c: Criteria)
    ensures SearchPath(c) == FirstMatch(Table(), c, AllActive)
  {
    var t := Table();
    if Given(c.identifier) {
      assert FirstApplies(t, c, 0);
    } else if Given(c.patient) {
      assert FirstApplies(t, c, 1);
    } else if Given(c.provider) {
      assert FirstApplies(t, c, 2);
    } else if Given(c.insurer) {
      assert FirstApplies(t, c, 3);
    } else if Given(c.status) {
      assert FirstApplies(t, c, 4);
    } else if Given(c.use) {
      assert FirstApplies(t, c, 5);
    } else {
      assert forall j :: 0 <= j < |t| ==> !t[j].applies(c);
    }
  }

  /** Every search path filters on `active`. */
  lemma SearchOnlyActive(rows: seq<ClaimRow>, c: Criteria)
    ensures forall e :: e in Search(rows, c) ==> e in rows && e.active
  {
    var r := Search(rows, c);
    match SearchPath(c)
    case ByIdentifier(system, value) =>
      if system.Some? {
        ExactlyMembers(r, rows, (e: ClaimRow) =>
          e.active && e.columns.identifierSystem == system && e.columns.identifierValue == Some(value));
      } else {
        ExactlyMembers(r, rows, (e: ClaimRow) => e.active && e.columns.identifierValue == Some(value));
      }
    case ByPatient(patient) =>
      ExactlyMembers(r, rows, (e: ClaimRow) => e.active && e.columns.patientReference == Some(patient));
    case ByProvider(provider) =>
      ExactlyMembers(r, rows, (e: ClaimRow) => e.active && e.columns.providerReference == Some(provider));
    case ByInsurer(insurer) =>
      ExactlyMembers(r, rows, (e: ClaimRow) => e.active && e.columns.insurerReference == Some(insurer));
    case ByStatus(status) =>
      ExactlyMembers(r, rows, (e: ClaimRow) => e.active && e.columns.status == Some(status));
    case ByUse(use) =>
      ExactlyMembers(r, rows, (e: ClaimRow) => e.active && e.columns.claimUse == Some(use));
    case AllActive =>
      ExactlyMembers(r, rows, (e: ClaimRow) => e.active);
  }

  function Mapper(codec: Codec<Claim>): (Resource<Claim>, Time) -> ClaimRow {
    (d: Resource<Claim>, now: Time) => Project(codec.encode, d, now)
  }

  /** Updating a soft-deleted claim makes it active again: the projection
      sets `active` to true and update does not override it. */
  lemma UpdateReactivates(codec: Codec<Claim>, rows: seq<ClaimRow>, id: string, d: Resource<Claim>, now: Time)
    requires Stored(rows) && FindByFhirId(rows, id).Some?
    ensures var existing := FindByFhirId(rows, id).value;
      var version := (existing.versionId.value + 1) as nat;
      var stamped := StampMeta(d.(id := Some(id)), version, now);
      var after := Upsert(rows, UpdatedRow(Mapper(codec), existing, stamped, version, now));
      FindByFhirId(after, id).Some? && FindByFhirId(after, id).value.active
  {
    var existing := FindByFhirId(rows, id).value;
    FoundStorable(rows, id);
    var version := (existing.versionId.value + 1) as nat;
    var stamped := StampMeta(d.(id := Some(id)), version, now);
    assert Mapper(codec)(stamped, now) == Project(codec.encode, stamped, now);
    UpdatedRowFound(Mapper(codec), rows, id, stamped, version, now);
  }

  /** The Claim instance of the resource service. */
  method NewService(codec: Codec<Claim>, validate: Resource<Claim> -> ValidationResult)
    returns (s: ResourceService<Claim, ClaimColumns, Criteria>)
    ensures fresh(s) && fresh(s.repository) && s.Valid() && s.repository.rows == []
    ensures s.resourceType == ResourceType && s.codec == codec && s.validate == validate
    ensures forall d, now :: s.mapper(d, now) == Project(codec.encode, d, now)
    ensures forall rows, c :: s.search(rows, c) == Search(rows, c)
  {
    s := new ResourceService(ResourceType, codec, validate, Mapper(codec), Search);
  }
}
