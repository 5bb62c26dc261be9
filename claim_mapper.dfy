/** The Claim projection: identifiers, status, type and use codes, the three
    parties, priority, total, creation date and billable period copied into
    the columns of the `claims` table. */
module ClaimMapper {
  import opened Wrappers
  import opened Fhir
  import opened Store

  /** The elements of a Claim the projection reads; `status` and `use` are
      their codes. */
  datatype Claim = Claim(
    identifier: seq<Identifier>,
    status: Option<string>,
    claimType: Option<CodeableConcept>,
    use: Option<string>,
    patient: Option<Reference>,
    provider: Option<Reference>,
    insurer: Option<Reference>,
    priority: Option<CodeableConcept>,
    total: Option<Money>,
    created: Option<Time>,
    billablePeriod: Option<Period>)

  datatype ClaimColumns = ClaimColumns(
    identifierSystem: Option<string>,
    identifierValue: Option<string>,
    status: Option<string>,
    claimType: Option<string>,
    claimUse: Option<string>,
    patientReference: Option<string>,
    patientDisplay: Option<string>,
    providerReference: Option<string>,
    providerDisplay: Option<string>,
    insurerReference: Option<string>,
    insurerDisplay: Option<string>,
    priorityCode: Option<string>,
    priorityDisplay: Option<string>,
    totalValue: Option<Decimal>,
    totalCurrency: Option<string>,
    createdDate: Option<Time>,
    billablePeriodStart: Option<Day>,
    billablePeriodEnd: Option<Day>)

  type ClaimRow = Entity<ClaimColumns>

  const NoMoney := Money(None, None)
  const NoPeriod := Period(None, None)

  /** The columns `toEntity` fills: each block is guarded by the presence of
      its element, and a missing element leaves its columns null. */
  function Columns(c: Claim): ClaimColumns {
    var id := FirstIdentifier(c.identifier);
    var claimType := OptionalConceptCoding(c.claimType);
    var patient := RefOf(c.patient);
    var provider := RefOf(c.provider);
    var insurer := RefOf(c.insurer);
    var priority := OptionalConceptCoding(c.priority);
    var total := c.total.GetOr(NoMoney);
    var period := c.billablePeriod.GetOr(NoPeriod);
    ClaimColumns(
      id.system, id.value, c.status, claimType.code, c.use,
      patient.reference, patient.display, provider.reference, provider.display,
      insurer.reference, insurer.display, priority.code, priority.display,
      total.value, total.currency, c.created,
      ToLocalDate(period.start), ToLocalDate(period.end))
  }

  /** The row `toEntity` builds: active is always true. */
  function Project(encode: Resource<Claim> -> string, d: Resource<Claim>, now: Time): (e: ClaimRow)
    ensures e.fhirId == d.id && e.fhirResource == encode(d) && e.active
    ensures e.versionId.None? && e.createdAt.None? && e.lastUpdated == now
  {
    Entity(d.id, None, Columns(d.body), true, encode(d), now, None)
  }

  /** Only the first identifier and the first codings of type and priority
      are read. */
  lemma LaterElementsIgnored(c: Claim, ids: seq<Identifier>, typeCodings: seq<Coding>, priorityCodings: seq<Coding>)
    requires c.identifier != []
    requires c.claimType.Some? && c.claimType.value.coding != []
    requires c.priority.Some? && c.priority.value.coding != []
    ensures var c' := c.(identifier := c.identifier + ids,
                         claimType := Some(c.claimType.value.(coding := c.claimType.value.coding + typeCodings)),
                         priority := Some(c.priority.value.(coding := c.priority.value.coding + priorityCodings)));
      Columns(c') == Columns(c)
  {
    assert (c.identifier + ids)[0] == c.identifier[0];
    assert (c.claimType.value.coding + typeCodings)[0] == c.claimType.value.coding[0];
    assert (c.priority.value.coding + priorityCodings)[0] == c.priority.value.coding[0];
  }

  /** A present total is copied as a pair: the value column holds the
      total's value even when its currency is null, and the other way round. */
  lemma TotalCopiedAsPair(c: Claim, m: Money)
    requires c.total == Some(m)
    ensures Columns(c).totalValue == m.value && Columns(c).totalCurrency == m.currency
  {
  }

  /** The billable period's start and end reach their columns independently:
      dropping one bound leaves the other's column as it was. */
  lemma BillableBoundsIndependent(c: Claim, p: Period)
    requires c.billablePeriod == Some(p)
    ensures Columns(c.(billablePeriod := Some(p.(end := None)))).billablePeriodStart == Columns(c).billablePeriodStart
    ensures Columns(c.(billablePeriod := Some(p.(start := None)))).billablePeriodEnd == Columns(c).billablePeriodEnd
    ensures Columns(c.(billablePeriod := Some(p.(end := None)))).billablePeriodEnd.None?
  {
  }
}
