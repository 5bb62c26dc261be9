/** The Practitioner service: the generic resource service over the
    Practitioner projection, and its search dispatch. */
module PractitionerService {
  import opened Wrappers
  import opened Text
  import opened Seqs
  import opened Fhir
  import opened Store
  import opened Precedence
  import opened Service
  import opened PractitionerMapper
  import opened PractitionerRepository

  const ResourceType := "Practitioner"

  datatype Criteria = Criteria(
    identifier: Option<string>,
    identifierSystem: Option<string>,
    npi: Option<string>,
    name: Option<string>,
    family: Option<string>,
    given: Option<string>,
    email: Option<string>,
    specialty: Option<string>)

  /** The repository query a search runs. */
  datatype Query =
    | ByIdentifier(system: Option<string>, value: string)
    | ByNpi(npi: string)
    | ByName(name: string)
    | ByFamily(family: string)
    | ByGiven(given: string)
    | ByEmail(email: string)
    | BySpecialty(specialty: string)
    | AllActive

  /** `searchPractitioners`' if/else chain; the identifier system is passed
      through as given, null or not. */
  function SearchPath(c: Criteria): Query {
    if Given(c.identifier) then ByIdentifier(c.identifierSystem, c.identifier.value)
    else if Given(c.npi) then ByNpi(c.npi.value)
    else if Given(c.name) then ByName(c.name.value)
    else if Given(c.family) then ByFamily(c.family.value)
    else if Given(c.given) then ByGiven(c.given.value)
    else if Given(c.email) then ByEmail(c.email.value)
    else if Given(c.specialty) then BySpecialty(c.specialty.value)
    else AllActive
  }

  /** An optional single row as a list of zero or one rows. */
  function AsList(r: Option<PractitionerRow>): (l: seq<PractitionerRow>)
    ensures |l| <= 1
    ensures r.None? ==> l == []
    ensures r.Some? ==> l == [r.value]
  {
    if r.Some? then [r.value] else []
  }

  function Run(rows: seq<PractitionerRow>, q: Query): seq<PractitionerRow> {
    match q
    case ByIdentifier(system, value) => FindByIdentifier(rows, system, Some(value))
    case ByNpi(npi) => AsList(FindByNpi(rows, npi))
    case ByName(name) => FindByName(rows, name)
    case ByFamily(family) => FindByFamilyName(rows, family)
    case ByGiven(given) => FindByGivenName(rows, given)
    case ByEmail(email) => AsList(FindByEmail(rows, email))
    case BySpecialty(specialty) => FindBySpecialty(rows, specialty)
    case AllActive => FindAllActive(rows)
  }

  function Search(rows: seq<PractitionerRow>, c: Criteria): seq<PractitionerRow> {
    Run(rows, SearchPath(c))
  }

  /** The precedence list: identifier, NPI, name, family, given, email,
      specialty; all active otherwise. */
  function Table(): seq<Rule<Criteria, Query>> {
    [ Rule((c: Criteria) => Given(c.identifier), (c: Criteria) => ByIdentifier(c.identifierSystem, c.identifier.GetOr(""))),
      Rule((c: Criteria) => Given(c.npi), (c: Criteria) => ByNpi(c.npi.GetOr(""))),
      Rule((c: Criteria) => Given(c.name), (c: Criteria) => ByName(c.name.GetOr(""))),
      Rule((c: Criteria) => Given(c.family), (c: Criteria) => ByFamily(c.family.GetOr(""))),
      Rule((c: Criteria) => Given(c.given), (c: Criteria) => ByGiven(c.given.GetOr(""))),
      Rule((c: Criteria) => Given(c.email), (c: Criteria) => ByEmail(c.email.GetOr(""))),
      Rule((c: Criteria) => Given(c.specialty), (c: Criteria) => BySpecialty(c.specialty.GetOr(""))) ]
  }

  /** The dispatch is exactly the first-match rule over the precedence list:
      the first non-empty criterion chooses the query and the rest are ignored. */
  lemma SearchPathFollowsTable(c: Criteria)
    ensures SearchPath(c) == FirstMatch(Table(), c, AllActive)
  {
    var t := Table();
    if Given(c.identifier) {
      assert FirstApplies(t, c, 0);
    } else if Given(c.npi) {
      assert FirstApplies(t, c, 1);
    } else if Given(c.name) {
      assert FirstApplies(t, c, 2);
    } else if Given(c.family) {
      assert FirstApplies(t, c, 3);
    } else if Given(c.given) {
      assert FirstApplies(t, c, 4);
    } else if Given(c.email) {
      assert FirstApplies(t, c, 5);
    } else if Given(c.specialty) {
      assert FirstApplies(t, c, 6);
    } else {
      assert forall j :: 0 <= j < |t| ==> !t[j].applies(c);
    }
  }

  /** Every search path filters on `active`. */
  lemma SearchOnlyActive(rows: seq<PractitionerRow>, c: Criteria)
    ensures forall e :: e in Search(rows, c) ==> e in rows && e.active
  {
    var r := Search(rows, c);
    match SearchPath(c)
    case ByIdentifier(system, value) =>
      if system.Some? {
        ExactlyMembers(r, rows, (e: PractitionerRow) =>
          e.active && e.columns.identifierSystem == system && e.columns.identifierValue == Some(value));
      } else {
        ExactlyMembers(r, rows, (e: PractitionerRow) => e.active && e.columns.identifierValue == Some(value));
      }
    case ByNpi(npi) =>
    case ByName(name) =>
      ExactlyMembers(r, rows, (e: PractitionerRow) =>
        e.active && (Like(e.columns.familyName, name) || Like(e.columns.givenName, name) || Like(e.columns.fullName, name)));
    case ByFamily(family) =>
      ExactlyMembers(r, rows, (e: PractitionerRow) => e.active && Like(e.columns.familyName, family));
    case ByGiven(given) =>
      ExactlyMembers(r, rows, (e: PractitionerRow) => e.active && Like(e.columns.givenName, given));
    case ByEmail(email) =>
    case BySpecialty(specialty) =>
      ExactlyMembers(r, rows, (e: PractitionerRow) => e.active && e.columns.specialtyCode == Some(specialty));
    case AllActive =>
      ExactlyMembers(r, rows, (e: PractitionerRow) => e.active);
  }

  /** The NPI and email paths return at most one practitioner; it is empty
      exactly when no active row carries that NPI or email. */
  lemma SingleResultPaths(rows: seq<PractitionerRow>, c: Criteria)
    requires SearchPath(c).ByNpi? || SearchPath(c).ByEmail?
    ensures |Search(rows, c)| <= 1
    ensures SearchPath(c).ByNpi? ==>
      (Search(rows, c) == [] <==> forall e :: e in rows ==> !(e.active && e.columns.npi == Some(SearchPath(c).npi)))
    ensures SearchPath(c).ByEmail? ==>
      (Search(rows, c) == [] <==> forall e :: e in rows ==> !(e.active && e.columns.email == Some(SearchPath(c).email)))
  {
  }

  function Mapper(codec: Codec<Practitioner>): (Resource<Practitioner>, Time) -> PractitionerRow {
    (d: Resource<Practitioner>, now: Time) => Project(codec.encode, d, now)
  }

  /** After create, the stored active flag is the document's own: a
      practitioner written with `active` false or absent is stored inactive. */
  lemma CreateStoresDocumentActive(codec: Codec<Practitioner>, rows: seq<PractitionerRow>,
                                   d: Resource<Practitioner>, freshId: string, now: Time)
    requires Stored(rows) && freshId != ""
    ensures var stamped := StampMeta(AssignId(d, freshId), 1, now);
      var after := Upsert(rows, CreatedRow(Mapper(codec), stamped, now));
      FindByFhirId(after, stamped.id.value).Some? &&
      (FindByFhirId(after, stamped.id.value).value.active <==> d.body.active == Some(true))
  {
    var stamped := StampMeta(AssignId(d, freshId), 1, now);
    UpsertFind(rows, CreatedRow(Mapper(codec), stamped, now), stamped.id.value);
  }

  /** After update, the stored active flag is again the document's own:
      updating a soft-deleted practitioner reactivates it only when the
      document says `active` is true. */
  lemma UpdateStoresDocumentActive(codec: Codec<Practitioner>, rows: seq<PractitionerRow>, id: string,
                                   d: Resource<Practitioner>, now: Time)
    requires Stored(rows) && FindByFhirId(rows, id).Some?
    ensures var existing := FindByFhirId(rows, id).value;
      var version := (existing.versionId.value + 1) as nat;
      var stamped := StampMeta(d.(id := Some(id)), version, now);
      var after := Upsert(rows, UpdatedRow(Mapper(codec), existing, stamped, version, now));
      FindByFhirId(after, id).Some? && (FindByFhirId(after, id).value.active <==> d.body.active == Some(true))
  {
    var existing := FindByFhirId(rows, id).value;
    FoundStorable(rows, id);
    var version := (existing.versionId.value + 1) as nat;
    var stamped := StampMeta(d.(id := Some(id)), version, now);
    assert Mapper(codec)(stamped, now) == Project(codec.encode, stamped, now);
    UpdatedRowFound(Mapper(codec), rows, id, stamped, version, now);
  }

  /** The Practitioner instance of the resource service. */
  method NewService(codec: Codec<Practitioner>, validate: Resource<Practitioner> -> ValidationResult)
    returns (s: ResourceService<Practitioner, PractitionerColumns, Criteria>)
    ensures fresh(s) && fresh(s.repository) && s.Valid() && s.repository.rows == []
    ensures s.resourceType == ResourceType && s.codec == codec && s.validate == validate
    ensures forall d, now :: s.mapper(d, now) == Project(codec.encode, d, now)
    ensures forall rows, c :: s.search(rows, c) == Search(rows, c)
  {
    s := new ResourceService(ResourceType, codec, validate, Mapper(codec), Search);
  }
}
