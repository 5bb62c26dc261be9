/** The `claims` table's queries. Every finder except `findByFhirId` returns
    active rows only; only `findAllActive` fixes an order. */
module ClaimRepository {
  import opened Wrappers
  import opened Seqs
  import opened Fhir
  import opened Store
  import opened ClaimMapper

  /** With a system, both system and value must match; without one, the value
      alone; without a value, nothing is returned. */
  function FindByIdentifier(rows: seq<ClaimRow>, system: Option<string>, value: Option<string>): (r: seq<ClaimRow>)
    ensures value.None? ==> r == []
    ensures value.Some? && system.Some? ==> Exactly(r, rows, (e: ClaimRow) =>
      e.active && e.columns.identifierSystem == system && e.columns.identifierValue == value)
    ensures value.Some? && system.None? ==> Exactly(r, rows, (e: ClaimRow) => e.active && e.columns.identifierValue == value)
  {
    IdentifierRows(rows, (c: ClaimColumns) => c.identifierSystem, (c: ClaimColumns) => c.identifierValue, system, value, true)
  }

  /** `where <column> = ?1 and active = true`, in no particular order. */
  function ActiveWhere(rows: seq<ClaimRow>, p: ClaimRow -> bool): (r: seq<ClaimRow>)
    ensures Exactly(r, rows, (e: ClaimRow) => e.active && p(e))
  {
    SelectExactly(rows, (e: ClaimRow) => e.active && p(e));
    Select(rows, (e: ClaimRow) => e.active && p(e))
  }

  function FindByPatient(rows: seq<ClaimRow>, patient: string): (r: seq<ClaimRow>)
    ensures Exactly(r, rows, (e: ClaimRow) => e.active && e.columns.patientReference == Some(patient))
  {
    ActiveWhere(rows, (e: ClaimRow) => e.columns.patientReference == Some(patient))
  }

  function FindByProvider(rows: seq<ClaimRow>, provider: string): (r: seq<ClaimRow>)
    ensures Exactly(r, rows, (e: ClaimRow) => e.active && e.columns.providerReference == Some(provider))
  {
    ActiveWhere(rows, (e: ClaimRow) => e.columns.providerReference == Some(provider))
  }

  function FindByInsurer(rows: seq<ClaimRow>, insurer: string): (r: seq<ClaimRow>)
    ensures Exactly(r, rows, (e: ClaimRow) => e.active && e.columns.insurerReference == Some(insurer))
  {
    ActiveWhere(rows, (e: ClaimRow) => e.columns.insurerReference == Some(insurer))
  }

  function FindByStatus(rows: seq<ClaimRow>, status: string): (r: seq<ClaimRow>)
    ensures Exactly(r, rows, (e: ClaimRow) => e.active && e.columns.status == Some(status))
  {
    ActiveWhere(rows, (e: ClaimRow) => e.columns.status == Some(status))
  }

  /** The `use` criterion is compared against the `claimUse` column. */
  function FindByUse(rows: seq<ClaimRow>, use: string): (r: seq<ClaimRow>)
    ensures Exactly(r, rows, (e: ClaimRow) => e.active && e.columns.claimUse == Some(use))
  {
    ActiveWhere(rows, (e: ClaimRow) => e.columns.claimUse == Some(use))
  }

  function CreatedKey(e: ClaimRow): Option<int> {
    e.columns.createdDate
  }

  /** `order by createdDate desc`: the claim's own creation date, not the row's. */
  ghost predicate ByCreatedDesc(r: seq<ClaimRow>) {
    SortedBy(r, ByKey(CreatedKey, DescNullsFirst))
  }

  function FindAllActive(rows: seq<ClaimRow>): (r: seq<ClaimRow>)
    ensures Exactly(r, rows, (e: ClaimRow) => e.active) && ByCreatedDesc(r)
  {
    DescNullsFirstPreorder();
    ByKeyPreorder(CreatedKey, DescNullsFirst);
    SelectSorted(rows, (e: ClaimRow) => e.active, ByKey(CreatedKey, DescNullsFirst))
  }

  /** Newest first: of two dated claims in the listing, the earlier-listed one
      was created no earlier than the later-listed one. */
  lemma AllActiveNewestFirst(rows: seq<ClaimRow>, i: int, j: int)
    requires 0 <= i < j < |FindAllActive(rows)|
    requires FindAllActive(rows)[i].columns.createdDate.Some? && FindAllActive(rows)[j].columns.createdDate.Some?
    ensures FindAllActive(rows)[i].columns.createdDate.value >= FindAllActive(rows)[j].columns.createdDate.value
  {
    var r := FindAllActive(rows);
    assert ByCreatedDesc(r);
    assert ByKey(CreatedKey, DescNullsFirst)(r[i], r[j]);
    assert DescNullsFirst(CreatedKey(r[i]), CreatedKey(r[j]));
  }
}
