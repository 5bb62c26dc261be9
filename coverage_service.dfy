/** The Coverage service: the generic resource service over the Coverage
    projection, its search dispatch, and the criteria the search endpoint
    builds from its query parameters. */
module CoverageService {
  import opened Wrappers
  import opened Text
  import opened Seqs
  import opened Fhir
  import opened Store
  import opened Precedence
  import opened Service
  import opened CoverageMapper
  import opened CoverageRepository

  const ResourceType := "Coverage"

  datatype Criteria = Criteria(
    identifierSystem: Option<string>,
    identifier: Option<string>,
    beneficiary: Option<string>,
    subscriber: Option<string>,
    payor: Option<string>,
    status: Option<string>)

  /** The repository query a search runs. */
  datatype Query =
    | ByIdentifier(system: Option<string>, value: string)
    | ByBeneficiary(beneficiary: string)
    | BySubscriber(subscriber: string)
    | ByPayor(payor: string)
    | ByStatus(status: string)
    | AllActive

  /** The criteria the search endpoint builds: `patient` stands in for a
      beneficiary parameter that is absent (but not for one that is empty),
      and no identifier system is ever set. */
  function FromParameters(identifier: Option<string>, patient: Option<string>, beneficiary: Option<string>,
                          subscriber: Option<string>, payor: Option<string>, status: Option<string>): (c: Criteria)
    ensures c.identifierSystem.None? && c.identifier == identifier
    ensures beneficiary.Some? ==> c.beneficiary == beneficiary
    ensures beneficiary.None? ==> c.beneficiary == patient
    ensures c.subscriber == subscriber && c.payor == payor && c.status == status
  {
    Criteria(None, identifier, if beneficiary.Some? then beneficiary else patient, subscriber, payor, status)
  }

  /** `searchCoverage`'s if/else chain. */
  function SearchPath(c: Criteria): Query {
    if Given(c.identifier) then ByIdentifier(c.identifierSystem, c.identifier.value)
    else if Given(c.beneficiary) then ByBeneficiary(c.beneficiary.value)
    else if Given(c.subscriber) then BySubscriber(c.subscriber.value)
    else if Given(c.payor) then ByPayor(c.payor.value)
    else if Given(c.status) then ByStatus(c.status.value)
    else AllActive
  }

  function Run(rows: seq<CoverageRow>, q: Query): seq<CoverageRow> {
    match q
    case ByIdentifier(system, value) => FindByIdentifier(rows, system, Some(value))
    case ByBeneficiary(beneficiary) => FindByBeneficiary(rows, beneficiary)
    case BySubscriber(subscriber) => FindBySubscriber(rows, subscriber)
    case ByPayor(payor) => FindByPayor(rows, payor)
    case ByStatus(status) => FindByStatus(rows, status)
    case AllActive => FindAllActive(rows)
  }

  function Search(rows: seq<CoverageRow>, c: Criteria): seq<CoverageRow> {
    Run(rows, SearchPath(c))
  }

  /** The precedence list: identifier, beneficiary, subscriber, payor,
      status; all active otherwise. */
  function Table(): seq<Rule<Criteria, Query>> {
    [ Rule((c: Criteria) => Given(c.identifier), (c: Criteria) => ByIdentifier(c.identifierSystem, c.identifier.GetOr(""))),
      Rule((c: Criteria) => Given(c.beneficiary), (c: Criteria) => ByBeneficiary(c.beneficiary.GetOr(""))),
      Rule((c: Criteria) => Given(c.subscriber), (c: Criteria) => BySubscriber(c.subscriber.GetOr(""))),
      Rule((c: Criteria) => Given(c.payor), (c: Criteria) => ByPayor(c.payor.GetOr(""))),
      Rule((c: Criteria) => Given(c.status), (c: Criteria) => ByStatus(c.status.GetOr(""))) ]
  }

  /** The dispatch is exactly the first-match rule over the precedence list. */
  lemma SearchPathFollowsTable(c: Criteria)
    ensures SearchPath(c) == FirstMatch(Table(), c, AllActive)
  {
    var t := Table();
    if Given(c.identifier) {
      assert FirstApplies(t, c, 0);
    } else if Given(c.beneficiary) {
      assert FirstApplies(t, c, 1);
    } else if Given(c.subscriber) {
      assert FirstApplies(t, c, 2);
    } else if Given(c.payor) {
      assert FirstApplies(t, c, 3);
    } else if Given(c.status) {
      assert FirstApplies(t, c, 4);
    } else {
      assert forall j :: 0 <= j < |t| ==> !t[j].applies(c);
    }
  }

  /** Every path except the identifier path filters on `active`. */
  lemma NonIdentifierSearchOnlyActive(rows: seq<CoverageRow>, c: Criteria)
    requires !SearchPath(c).ByIdentifier?
    ensures forall e :: e in Search(rows, c) ==> e in rows && e.active
  {
    var r := Search(rows, c);
    match SearchPath(c)
    case ByBeneficiary(beneficiary) =>
      ExactlyMembers(r, rows, (e: CoverageRow) => e.active && e.columns.beneficiaryReference == Some(beneficiary));
    case BySubscriber(subscriber) =>
      ExactlyMembers(r, rows, (e: CoverageRow) => e.active && e.columns.subscriberReference == Some(subscriber));
    case ByPayor(payor) =>
      ExactlyMembers(r, rows, (e: CoverageRow) => e.active && e.columns.payorReference == Some(payor));
    case ByStatus(status) =>
      ExactlyMembers(r, rows, (e: CoverageRow) => e.active && e.columns.status == Some(status));
    case AllActive =>
      ExactlyMembers(r, rows, (e: CoverageRow) => e.active);
  }

  /** A search by identifier returns a soft-deleted coverage whose identifier
      value matches, whatever the other criteria say. */
  lemma IdentifierSearchReturnsDeleted(rows: seq<CoverageRow>, k: int, id: string, now: Time, c: Criteria)
    requires 0 <= k < |rows| && rows[k].fhirId == Some(id)
    requires Given(c.identifier) && c.identifierSystem.None? && rows[k].columns.identifierValue == c.identifier
    ensures var after := MarkDeleted(rows, id, now);
      !after[k].active && after[k] in Search(after, c)
  {
    DeletedFoundByIdentifier(rows, k, id, now, None);
  }

  /** An empty `beneficiary` parameter keeps `patient` from being used, and
      the search then ignores both. */
  lemma EmptyBeneficiaryHidesPatient(patient: string, subscriber: Option<string>, payor: Option<string>, status: Option<string>)
    ensures SearchPath(FromParameters(None, Some(patient), Some(""), subscriber, payor, status)) ==
      SearchPath(Criteria(None, None, None, subscriber, payor, status))
  {
  }

  /** An absent `beneficiary` parameter makes a non-empty `patient` the
      beneficiary searched for, unless an identifier is given. */
  lemma PatientStandsInForBeneficiary(identifier: Option<string>, patient: string, subscriber: Option<string>,
                                      payor: Option<string>, status: Option<string>)
    requires !Given(identifier) && patient != ""
    ensures SearchPath(FromParameters(identifier, Some(patient), None, subscriber, payor, status)) == ByBeneficiary(patient)
  {
  }

  function Mapper(codec: Codec<Coverage>): (Resource<Coverage>, Time) -> CoverageRow {
    (d: Resource<Coverage>, now: Time) => Project(codec.encode, d, now)
  }

  /** Updating a soft-deleted coverage makes it active again: the projection
      sets `active` to true and update does not override it. */
  lemma UpdateReactivates(codec: Codec<Coverage>, rows: seq<CoverageRow>, id: string, d: Resource<Coverage>, now: Time)
    requires Stored(rows) && FindByFhirId(rows, id).Some?
    ensures var existing := FindByFhirId(rows, id).value;
      var version := (existing.versionId.value + 1) as nat;
      var stamped := StampMeta(d.(id := Some(id)), version, now);
      var after := Upsert(rows, UpdatedRow(Mapper(codec), existing, stamped, version, now));
      FindByFhirId(after, id).Some? && FindByFhirId(after, id).value.active
  {
    var existing := FindByFhirId(rows, id).value;
    FoundStorable(rows, id);
    var version := (existing.versionId.value + 1) as nat;
    var stamped := StampMeta(d.(id := Some(id)), version, now);
    assert Mapper(codec)(stamped, now) == Project(codec.encode, stamped, now);
    UpdatedRowFound(Mapper(codec), rows, id, stamped, version, now);
  }

  /** The Coverage instance of the resource service. */
  method NewService(codec: Codec<Coverage>, validate: Resource<Coverage> -> ValidationResult)
    returns (s: ResourceService<Coverage, CoverageColumns, Criteria>)
    ensures fresh(s) && fresh(s.repository) && s.Valid() && s.repository.rows == []
    ensures s.resourceType == ResourceType && s.codec == codec && s.validate == validate
    ensures forall d, now :: s.mapper(d, now) == Project(codec.encode, d, now)
    ensures forall rows, c :: s.search(rows, c) == Search(rows, c)
  {
    s := new ResourceService(ResourceType, codec, validate, Mapper(codec), Search);
  }
}
