/** The `patients` table's queries. The identifier finder, unlike the others,
    does not filter on the active flag; no finder fixes an order. */
module PatientRepository {
  import opened Wrappers
  import opened Text
  import opened Seqs
  import opened Fhir
  import opened Store
  import opened PatientMapper

  /** With a system, both system and value must match; without one, the value
      alone; without a value, nothing. Soft-deleted rows are included. */
  function FindByIdentifier(rows: seq<PatientRow>, system: Option<string>, value: Option<string>): (r: seq<PatientRow>)
    ensures value.None? ==> r == []
    ensures value.Some? && system.Some? ==> Exactly(r, rows, (e: PatientRow) =>
      e.columns.identifierSystem == system && e.columns.identifierValue == value)
    ensures value.Some? && system.None? ==> Exactly(r, rows, (e: PatientRow) => e.columns.identifierValue == value)
  {
    IdentifierRows(rows, (c: PatientColumns) => c.identifierSystem, (c: PatientColumns) => c.identifierValue, system, value, false)
  }

  /** `lower(column) like lower('%q%')`: a null column never matches. */
  predicate Like(column: Option<string>, q: string) {
    column.Some? && ContainsIgnoreCase(column.value, q)
  }

  /** The condition `searchByName` builds: a containment test for each of
      family and given that is non-empty, on active rows. */
  predicate NameMatches(e: PatientRow, family: Option<string>, given: Option<string>) {
    e.active
    && (Given(family) ==> Like(e.columns.familyName, family.value))
    && (Given(given) ==> Like(e.columns.givenName, given.value))
  }

  function SearchByName(rows: seq<PatientRow>, family: Option<string>, given: Option<string>): (r: seq<PatientRow>)
    ensures Exactly(r, rows, (e: PatientRow) => NameMatches(e, family, given))
  {
    SelectExactly(rows, (e: PatientRow) => NameMatches(e, family, given));
    Select(rows, (e: PatientRow) => NameMatches(e, family, given))
  }

  function SearchByBirthDate(rows: seq<PatientRow>, birthDate: Day): (r: seq<PatientRow>)
    ensures Exactly(r, rows, (e: PatientRow) => e.active && e.columns.birthDate == Some(birthDate))
  {
    SelectExactly(rows, (e: PatientRow) => e.active && e.columns.birthDate == Some(birthDate));
    Select(rows, (e: PatientRow) => e.active && e.columns.birthDate == Some(birthDate))
  }

  function FindAllActive(rows: seq<PatientRow>): (r: seq<PatientRow>)
    ensures Exactly(r, rows, (e: PatientRow) => e.active)
  {
    SelectExactly(rows, (e: PatientRow) => e.active);
    Select(rows, (e: PatientRow) => e.active)
  }

  /** The three shapes of `searchByName`: both names must be contained when
      both are given, one alone when only one is, and without names every
      active row is returned. A row without a family (or given) name is
      never found by that name. */
  lemma SearchByNameCases(rows: seq<PatientRow>, family: Option<string>, given: Option<string>)
    ensures Given(family) && Given(given) ==> forall e :: e in SearchByName(rows, family, given) <==>
      e in rows && e.active && Like(e.columns.familyName, family.value) && Like(e.columns.givenName, given.value)
    ensures Given(family) && !Given(given) ==> forall e :: e in SearchByName(rows, family, given) <==>
      e in rows && e.active && Like(e.columns.familyName, family.value)
    ensures !Given(family) && Given(given) ==> forall e :: e in SearchByName(rows, family, given) <==>
      e in rows && e.active && Like(e.columns.givenName, given.value)
    ensures !Given(family) && !Given(given) ==> SearchByName(rows, family, given) == FindAllActive(rows)
  {
    ExactlyMembers(SearchByName(rows, family, given), rows, (e: PatientRow) => NameMatches(e, family, given));
    if !Given(family) && !Given(given) {
      SelectAgreeing(rows, (e: PatientRow) => NameMatches(e, family, given), (e: PatientRow) => e.active);
    }
  }

  /** Naming both family and given narrows the result of naming either alone. */
  lemma BothNamesNarrow(rows: seq<PatientRow>, family: string, given: string)
    ensures forall e :: e in SearchByName(rows, Some(family), Some(given)) ==>
      e in SearchByName(rows, Some(family), None) && e in SearchByName(rows, None, Some(given))
  {
    ExactlyMembers(SearchByName(rows, Some(family), Some(given)), rows, (e: PatientRow) => NameMatches(e, Some(family), Some(given)));
    ExactlyMembers(SearchByName(rows, Some(family), None), rows, (e: PatientRow) => NameMatches(e, Some(family), None));
    ExactlyMembers(SearchByName(rows, None, Some(given)), rows, (e: PatientRow) => NameMatches(e, None, Some(given)));
  }
}
