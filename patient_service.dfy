/** The Patient service: the generic resource service over the Patient
    projection, and its search dispatch. */
module PatientService {
  import opened Wrappers
  import opened Text
  import opened Seqs
  import opened Fhir
  import opened Store
  import opened Precedence
  import opened Service
  import opened PatientMapper
  import opened PatientRepository

  const ResourceType := "Patient"

  datatype Criteria = Criteria(
    identifierSystem: Option<string>,
    identifier: Option<string>,
    family: Option<string>,
    given: Option<string>,
    birthDate: Option<Day>)

  /** The repository query a search runs; the name query receives both name
      criteria as they were given. */
  datatype Query =
    | ByIdentifier(system: Option<string>, value: string)
    | ByName(family: Option<string>, given: Option<string>)
    | ByBirthDate(birthDate: Day)
    | AllActive

  /** `searchPatients`' if/else chain: a birth date counts whenever it is
      present, the strings only when non-empty. */
  function SearchPath(c: Criteria): Query {
    if Given(c.identifier) then ByIdentifier(c.identifierSystem, c.identifier.value)
    else if Given(c.family) || Given(c.given) then ByName(c.family, c.given)
    else if c.birthDate.Some? then ByBirthDate(c.birthDate.value)
    else AllActive
  }

  function Run(rows: seq<PatientRow>, q: Query): seq<PatientRow> {
    match q
    case ByIdentifier(system, value) => FindByIdentifier(rows, system, Some(value))
    case ByName(family, given) => SearchByName(rows, family, given)
    case ByBirthDate(birthDate) => SearchByBirthDate(rows, birthDate)
    case AllActive => FindAllActive(rows)
  }

  function Search(rows: seq<PatientRow>, c: Criteria): seq<PatientRow> {
    Run(rows, SearchPath(c))
  }

  /** The precedence list: identifier, name, birth date; all active otherwise. */
  function Table(): seq<Rule<Criteria, Query>> {
    [ Rule((c: Criteria) => Given(c.identifier), (c: Criteria) => ByIdentifier(c.identifierSystem, c.identifier.GetOr(""))),
      Rule((c: Criteria) => Given(c.family) || Given(c.given), (c: Criteria) => ByName(c.family, c.given)),
      Rule((c: Criteria) => c.birthDate.Some?, (c: Criteria) => ByBirthDate(c.birthDate.GetOr(0))) ]
  }

  /** The dispatch is exactly the first-match rule over the precedence list. */
  lemma SearchPathFollowsTable(c: Criteria)
    ensures SearchPath(c) == FirstMatch(Table(), c, AllActive)
  {
    var t := Table();
    if Given(c.identifier) {
      assert FirstApplies(t, c, 0);
    } else if Given(c.family) || Given(c.given) {
      assert FirstApplies(t, c, 1);
    } else if c.birthDate.Some? {
      assert FirstApplies(t, c, 2);
    } else {
      assert forall j :: 0 <= j < |t| ==> !t[j].applies(c);
    }
  }

  /** Every path except the identifier path filters on `active`. */
  lemma NonIdentifierSearchOnlyActive(rows: seq<PatientRow>, c: Criteria)
    requires !SearchPath(c).ByIdentifier?
    ensures forall e :: e in Search(rows, c) ==> e in rows && e.active
  {
    var r := Search(rows, c);
    match SearchPath(c)
    case ByName(family, given) =>
      ExactlyMembers(r, rows, (e: PatientRow) => NameMatches(e, family, given));
    case ByBirthDate(birthDate) =>
      ExactlyMembers(r, rows, (e: PatientRow) => e.active && e.columns.birthDate == Some(birthDate));
    case AllActive =>
      ExactlyMembers(r, rows, (e: PatientRow) => e.active);
  }

  /** A search by identifier returns an inactive patient whose identifier
      matches, whatever the name and birth-date criteria say. */
  lemma IdentifierSearchReturnsInactive(rows: seq<PatientRow>, e: PatientRow, c: Criteria)
    requires e in rows && Given(c.identifier) && e.columns.identifierValue == c.identifier
    requires c.identifierSystem.None? || c.identifierSystem == e.columns.identifierSystem
    ensures e in Search(rows, c)
  {
    ExactlyMembers(Search(rows, c), rows, (x: PatientRow) =>
      (c.identifierSystem.Some? ==> x.columns.identifierSystem == c.identifierSystem) && x.columns.identifierValue == c.identifier);
  }

  /** With no identifier and a non-empty name, the birth date is ignored. */
  lemma NameOverridesBirthDate(rows: seq<PatientRow>, c: Criteria, d: Option<Day>)
    requires !Given(c.identifier) && (Given(c.family) || Given(c.given))
    ensures Search(rows, c.(birthDate := d)) == Search(rows, c)
  {
  }

  function Mapper(codec: Codec<Patient>): (Resource<Patient>, Time) -> PatientRow {
    (d: Resource<Patient>, now: Time) => Project(codec.encode, d, now)
  }

  /** After create, the stored row's active flag is the document's own. */
  lemma CreateStoresDocumentActive(codec: Codec<Patient>, rows: seq<PatientRow>,
                                   d: Resource<Patient>, freshId: string, now: Time)
    requires Stored(rows) && freshId != ""
    ensures var stamped := StampMeta(AssignId(d, freshId), 1, now);
      var after := Upsert(rows, CreatedRow(Mapper(codec), stamped, now));
      FindByFhirId(after, stamped.id.value).Some? &&
      (FindByFhirId(after, stamped.id.value).value.active <==> d.body.active == Some(true))
  {
    var stamped := StampMeta(AssignId(d, freshId), 1, now);
    UpsertFind(rows, CreatedRow(Mapper(codec), stamped, now), stamped.id.value);
  }

  /** After update, the stored row's active flag is the incoming document's:
      an update can reactivate or deactivate a patient. */
  lemma UpdateStoresDocumentActive(codec: Codec<Patient>, rows: seq<PatientRow>, id: string, d: Resource<Patient>, now: Time)
    requires Stored(rows) && FindByFhirId(rows, id).Some?
    ensures var existing := FindByFhirId(rows, id).value;
      var version := (existing.versionId.value + 1) as nat;
      var stamped := StampMeta(d.(id := Some(id)), version, now);
      var after := Upsert(rows, UpdatedRow(Mapper(codec), existing, stamped, version, now));
      FindByFhirId(after, id).Some? && (FindByFhirId(after, id).value.active <==> d.body.active == Some(true))
  {
    var existing := FindByFhirId(rows, id).value;
    FoundStorable(rows, id);
    var version := (existing.versionId.value + 1) as nat;
    var stamped := StampMeta(d.(id := Some(id)), version, now);
    assert Mapper(codec)(stamped, now) == Project(codec.encode, stamped, now);
    UpdatedRowFound(Mapper(codec), rows, id, stamped, version, now);
  }

  /** The Patient instance of the resource service. */
  method NewService(codec: Codec<Patient>, validate: Resource<Patient> -> ValidationResult)
    returns (s: ResourceService<Patient, PatientColumns, Criteria>)
    ensures fresh(s) && fresh(s.repository) && s.Valid() && s.repository.rows == []
    ensures s.resourceType == ResourceType && s.codec == codec && s.validate == validate
    ensures forall d, now :: s.mapper(d, now) == Project(codec.encode, d, now)
    ensures forall rows, c :: s.search(rows, c) == Search(rows, c)
  {
    s := new ResourceService(ResourceType, codec, validate, Mapper(codec), Search);
  }
}
