/** The Coverage projection: identifiers, status, beneficiary and subscriber,
    the first payor, type and period copied into the columns of the
    `coverages` table. */
module CoverageMapper {
  import opened Wrappers
  import opened Fhir
  import opened Store

  /** The elements of a Coverage the projection reads; `status` is its code. */
  datatype Coverage = Coverage(
    identifier: seq<Identifier>,
    status: Option<string>,
    beneficiary: Option<Reference>,
    subscriber: Option<Reference>,
    payor: seq<Reference>,
    coverageType: Option<CodeableConcept>,
    period: Option<Period>)

  datatype CoverageColumns = CoverageColumns(
    identifierSystem: Option<string>,
    identifierValue: Option<string>,
    subscriberReference: Option<string>,
    beneficiaryReference: Option<string>,
    status: Option<string>,
    typeCode: Option<string>,
    typeDisplay: Option<string>,
    payorReference: Option<string>,
    payorDisplay: Option<string>,
    periodStart: Option<Day>,
    periodEnd: Option<Day>)

  type CoverageRow = Entity<CoverageColumns>

  const NoPeriod := Period(None, None)

  /** The columns `toEntity` fills: beneficiary and subscriber contribute
      their reference only, the payor its reference and display. */
  function Columns(c: Coverage): CoverageColumns {
    var id := FirstIdentifier(c.identifier);
    var payor := RefOf(if c.payor != [] then Some(c.payor[0]) else None);
    var coverageType := OptionalConceptCoding(c.coverageType);
    var period := c.period.GetOr(NoPeriod);
    CoverageColumns(
      id.system, id.value,
      RefOf(c.subscriber).reference, RefOf(c.beneficiary).reference,
      c.status, coverageType.code, coverageType.display,
      payor.reference, payor.display,
      ToLocalDate(period.start), ToLocalDate(period.end))
  }

  /** The row `toEntity` builds: active is always true. */
  function Project(encode: Resource<Coverage> -> string, d: Resource<Coverage>, now: Time): (e: CoverageRow)
    ensures e.fhirId == d.id && e.fhirResource == encode(d) && e.active
    ensures e.versionId.None? && e.createdAt.None? && e.lastUpdated == now
  {
    Entity(d.id, None, Columns(d.body), true, encode(d), now, None)
  }

  /** Only the first identifier, the first payor and the type's first coding
      are read. */
  lemma LaterElementsIgnored(c: Coverage, ids: seq<Identifier>, payors: seq<Reference>, codings: seq<Coding>)
    requires c.identifier != [] && c.payor != [] && c.coverageType.Some? && c.coverageType.value.coding != []
    ensures var c' := c.(identifier := c.identifier + ids, payor := c.payor + payors,
                         coverageType := Some(c.coverageType.value.(coding := c.coverageType.value.coding + codings)));
      Columns(c') == Columns(c)
  {
    assert (c.identifier + ids)[0] == c.identifier[0];
    assert (c.payor + payors)[0] == c.payor[0];
    assert (c.coverageType.value.coding + codings)[0] == c.coverageType.value.coding[0];
  }

  /** The displays of beneficiary and subscriber never reach a column. */
  lemma PartyDisplaysIgnored(c: Coverage, beneficiaryDisplay: Option<string>, subscriberDisplay: Option<string>)
    requires c.beneficiary.Some? && c.subscriber.Some?
    ensures var c' := c.(beneficiary := Some(c.beneficiary.value.(display := beneficiaryDisplay)),
                         subscriber := Some(c.subscriber.value.(display := subscriberDisplay)));
      Columns(c') == Columns(c)
  {
  }

  /** The period's start and end reach their columns independently. */
  lemma PeriodBoundsIndependent(c: Coverage, p: Period)
    requires c.period == Some(p)
    ensures Columns(c.(period := Some(p.(end := None)))).periodStart == Columns(c).periodStart
    ensures Columns(c.(period := Some(p.(start := None)))).periodEnd == Columns(c).periodEnd
  {
  }
}
