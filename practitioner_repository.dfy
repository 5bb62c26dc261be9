/** The `practitioners` table's queries. Every finder except `findByFhirId`
    returns active rows only. */
module PractitionerRepository {
  import opened Wrappers
  import opened Text
  import opened Seqs
  import opened Fhir
  import opened Store
  import opened PractitionerMapper

  /** With a system, both system and value must match; without one, the value
      alone; without a value, nothing is returned. */
  function FindByIdentifier(rows: seq<PractitionerRow>, system: Option<string>, value: Option<string>): (r: seq<PractitionerRow>)
    ensures value.None? ==> r == []
    ensures value.Some? && system.Some? ==> Exactly(r, rows, (e: PractitionerRow) =>
      e.active && e.columns.identifierSystem == system && e.columns.identifierValue == value)
    ensures value.Some? && system.None? ==> Exactly(r, rows, (e: PractitionerRow) => e.active && e.columns.identifierValue == value)
  {
    IdentifierRows(rows, (c: PractitionerColumns) => c.identifierSystem, (c: PractitionerColumns) => c.identifierValue, system, value, true)
  }

  /** An active row with this NPI, when there is one. */
  function FindByNpi(rows: seq<PractitionerRow>, npi: string): (r: Option<PractitionerRow>)
    ensures r.None? <==> forall e :: e in rows ==> !(e.active && e.columns.npi == Some(npi))
    ensures r.Some? ==> r.value in rows && r.value.active && r.value.columns.npi == Some(npi)
  {
    AnyMatching(rows, (e: PractitionerRow) => e.active && e.columns.npi == Some(npi))
  }

  /** `LOWER(column) LIKE '%q%'` with the query lowercased: a null column never matches. */
  predicate Like(column: Option<string>, q: string) {
    column.Some? && ContainsIgnoreCase(column.value, q)
  }

  /** Active rows whose family, given or full name contains the query, ignoring case. */
  function FindByName(rows: seq<PractitionerRow>, name: string): (r: seq<PractitionerRow>)
    ensures Exactly(r, rows, (e: PractitionerRow) =>
      e.active && (Like(e.columns.familyName, name) || Like(e.columns.givenName, name) || Like(e.columns.fullName, name)))
  {
    var p := (e: PractitionerRow) =>
      e.active && (Like(e.columns.familyName, name) || Like(e.columns.givenName, name) || Like(e.columns.fullName, name));
    SelectExactly(rows, p);
    Select(rows, p)
  }

  function FindByFamilyName(rows: seq<PractitionerRow>, familyName: string): (r: seq<PractitionerRow>)
    ensures Exactly(r, rows, (e: PractitionerRow) => e.active && Like(e.columns.familyName, familyName))
  {
    SelectExactly(rows, (e: PractitionerRow) => e.active && Like(e.columns.familyName, familyName));
    Select(rows, (e: PractitionerRow) => e.active && Like(e.columns.familyName, familyName))
  }

  function FindByGivenName(rows: seq<PractitionerRow>, givenName: string): (r: seq<PractitionerRow>)
    ensures Exactly(r, rows, (e: PractitionerRow) => e.active && Like(e.columns.givenName, givenName))
  {
    SelectExactly(rows, (e: PractitionerRow) => e.active && Like(e.columns.givenName, givenName));
    Select(rows, (e: PractitionerRow) => e.active && Like(e.columns.givenName, givenName))
  }

  function FindBySpecialty(rows: seq<PractitionerRow>, specialtyCode: string): (r: seq<PractitionerRow>)
    ensures Exactly(r, rows, (e: PractitionerRow) => e.active && e.columns.specialtyCode == Some(specialtyCode))
  {
    SelectExactly(rows, (e: PractitionerRow) => e.active && e.columns.specialtyCode == Some(specialtyCode));
    Select(rows, (e: PractitionerRow) => e.active && e.columns.specialtyCode == Some(specialtyCode))
  }

  /** An active row with this email, when there is one. */
  function FindByEmail(rows: seq<PractitionerRow>, email: string): (r: Option<PractitionerRow>)
    ensures r.None? <==> forall e :: e in rows ==> !(e.active && e.columns.email == Some(email))
    ensures r.Some? ==> r.value in rows && r.value.active && r.value.columns.email == Some(email)
  {
    AnyMatching(rows, (e: PractitionerRow) => e.active && e.columns.email == Some(email))
  }

  function NameKey(e: PractitionerRow): (Option<string>, Option<string>) {
    (e.columns.familyName, e.columns.givenName)
  }

  /** `order by familyName, givenName`. */
  ghost predicate ByName(r: seq<PractitionerRow>) {
    SortedBy(r, ByKey(NameKey, TextPairAsc))
  }

  function FindAllActive(rows: seq<PractitionerRow>): (r: seq<PractitionerRow>)
    ensures Exactly(r, rows, (e: PractitionerRow) => e.active) && ByName(r)
  {
    TextPairAscPreorder();
    ByKeyPreorder(NameKey, TextPairAsc);
    SelectSorted(rows, (e: PractitionerRow) => e.active, ByKey(NameKey, TextPairAsc))
  }

  /** The name search is the union of the family-name search, the given-name
      search and a containment test on the full name. */
  lemma NameSearchIsUnion(rows: seq<PractitionerRow>, q: string)
    ensures forall e :: e in FindByName(rows, q) <==>
      e in FindByFamilyName(rows, q) || e in FindByGivenName(rows, q) || (e in rows && e.active && Like(e.columns.fullName, q))
  {
    ExactlyMembers(FindByName(rows, q), rows, (e: PractitionerRow) =>
      e.active && (Like(e.columns.familyName, q) || Like(e.columns.givenName, q) || Like(e.columns.fullName, q)));
    ExactlyMembers(FindByFamilyName(rows, q), rows, (e: PractitionerRow) => e.active && Like(e.columns.familyName, q));
    ExactlyMembers(FindByGivenName(rows, q), rows, (e: PractitionerRow) => e.active && Like(e.columns.givenName, q));
  }
}
