/** The `coverages` table's queries. The identifier finder, unlike the others,
    does not filter on the active flag; no finder fixes an order. */
module CoverageRepository {
  import opened Wrappers
  import opened Seqs
  import opened Fhir
  import opened Store
  import opened CoverageMapper

  /** With a system, both system and value must match; without one, the value
      alone; without a value, nothing. Soft-deleted rows are included. */
  function FindByIdentifier(rows: seq<CoverageRow>, system: Option<string>, value: Option<string>): (r: seq<CoverageRow>)
    ensures value.None? ==> r == []
    ensures value.Some? && system.Some? ==> Exactly(r, rows, (e: CoverageRow) =>
      e.columns.identifierSystem == system && e.columns.identifierValue == value)
    ensures value.Some? && system.None? ==> Exactly(r, rows, (e: CoverageRow) => e.columns.identifierValue == value)
  {
    IdentifierRows(rows, (c: CoverageColumns) => c.identifierSystem, (c: CoverageColumns) => c.identifierValue, system, value, false)
  }

  /** `where <column> = ?1 and active = true`, in no particular order. */
  function ActiveWhere(rows: seq<CoverageRow>, p: CoverageRow -> bool): (r: seq<CoverageRow>)
    ensures Exactly(r, rows, (e: CoverageRow) => e.active && p(e))
  {
    SelectExactly(rows, (e: CoverageRow) => e.active && p(e));
    Select(rows, (e: CoverageRow) => e.active && p(e))
  }

  function FindByBeneficiary(rows: seq<CoverageRow>, beneficiary: string): (r: seq<CoverageRow>)
    ensures Exactly(r, rows, (e: CoverageRow) => e.active && e.columns.beneficiaryReference == Some(beneficiary))
  {
    ActiveWhere(rows, (e: CoverageRow) => e.columns.beneficiaryReference == Some(beneficiary))
  }

  function FindBySubscriber(rows: seq<CoverageRow>, subscriber: string): (r: seq<CoverageRow>)
    ensures Exactly(r, rows, (e: CoverageRow) => e.active && e.columns.subscriberReference == Some(subscriber))
  {
    ActiveWhere(rows, (e: CoverageRow) => e.columns.subscriberReference == Some(subscriber))
  }

  function FindByPayor(rows: seq<CoverageRow>, payor: string): (r: seq<CoverageRow>)
    ensures Exactly(r, rows, (e: CoverageRow) => e.active && e.columns.payorReference == Some(payor))
  {
    ActiveWhere(rows, (e: CoverageRow) => e.columns.payorReference == Some(payor))
  }

  function FindByStatus(rows: seq<CoverageRow>, status: string): (r: seq<CoverageRow>)
    ensures Exactly(r, rows, (e: CoverageRow) => e.active && e.columns.status == Some(status))
  {
    ActiveWhere(rows, (e: CoverageRow) => e.columns.status == Some(status))
  }

  function FindAllActive(rows: seq<CoverageRow>): (r: seq<CoverageRow>)
    ensures Exactly(r, rows, (e: CoverageRow) => e.active)
  {
    ActiveWhere(rows, (e: CoverageRow) => true)
  }

  /** A soft-deleted coverage is still found by its identifier: the row the
      delete marked inactive is among the results. */
  lemma DeletedFoundByIdentifier(rows: seq<CoverageRow>, k: int, id: string, now: Time, system: Option<string>)
    requires 0 <= k < |rows| && rows[k].fhirId == Some(id) && rows[k].columns.identifierValue.Some?
    requires system.None? || system == rows[k].columns.identifierSystem
    ensures var deleted := MarkDeleted(rows, id, now)[k];
      !deleted.active && deleted in FindByIdentifier(MarkDeleted(rows, id, now), system, rows[k].columns.identifierValue)
  {
    var after := MarkDeleted(rows, id, now);
    assert after[k].columns == rows[k].columns;
    assert after[k] in after;
    ExactlyMembers(FindByIdentifier(after, system, rows[k].columns.identifierValue), after,
      (e: CoverageRow) => (system.Some? ==> e.columns.identifierSystem == system) && e.columns.identifierValue == rows[k].columns.identifierValue);
  }
}
