/** The HL7 FHIR R4 data types that the six resource families read from.
    Only the elements the projections inspect are modelled; a present element
    is `Some`, an absent one `None`, a repeated element a sequence. */
module Fhir {
  import opened Wrappers
  import opened Seqs

  /** An instant or a local date-time, in whole seconds since 1970-01-01T00:00:00. */
  type Time = int

  /** A calendar date, in days since 1970-01-01. */
  type Day = int

  const SecondsPerDay: int := 86400

  /** The calendar date of an instant (`Date -> LocalDate`), taking the zone as UTC. */
  function DayOf(t: Time): (d: Day)
    ensures d * SecondsPerDay <= t < (d + 1) * SecondsPerDay
  {
    t / SecondsPerDay
  }

  /** A `BigDecimal`: unscaled value times ten to the minus scale. Copied, never computed with. */
  datatype Decimal = Decimal(unscaled: int, scale: nat)

  datatype Coding = Coding(system: Option<string>, code: Option<string>, display: Option<string>)

  datatype CodeableConcept = CodeableConcept(coding: seq<Coding>, text: Option<string>)

  datatype Identifier = Identifier(system: Option<string>, value: Option<string>)

  datatype Reference = Reference(reference: Option<string>, display: Option<string>)

  datatype Period = Period(start: Option<Time>, end: Option<Time>)

  /** `Quantity` and its profile `Duration`. */
  datatype Quantity = Quantity(value: Option<Decimal>, unit: Option<string>)

  datatype Money = Money(value: Option<Decimal>, currency: Option<string>)

  datatype HumanName = HumanName(
    text: Option<string>,
    family: Option<string>,
    given: seq<string>,
    prefix: seq<string>,
    suffix: seq<string>)

  datatype ContactPointSystem = Phone | Fax | Email | Pager | Url | Sms | OtherSystem

  datatype ContactPoint = ContactPoint(system: Option<ContactPointSystem>, value: Option<string>)

  datatype Address = Address(
    line: seq<string>,
    city: Option<string>,
    state: Option<string>,
    postalCode: Option<string>,
    country: Option<string>)

  /** Resource metadata; `profile` stands for the elements the services never touch. */
  datatype Meta = Meta(versionId: Option<string>, lastUpdated: Option<Time>, profile: seq<string>)

  /** A resource of one family: its logical id (the id part), its metadata and
      the family-specific content `B`. */
  datatype Resource<B> = Resource(id: Option<string>, meta: Option<Meta>, body: B)

  const NoIdentifier := Identifier(None, None)
  const NoCoding := Coding(None, None, None)

  /** The first identifier; an empty list reads as an identifier with neither
      system nor value, so both columns stay null. */
  function FirstIdentifier(ids: seq<Identifier>): (r: Identifier)
    ensures ids == [] ==> r == NoIdentifier
    ensures ids != [] ==> r == ids[0]
  {
    First(ids).GetOr(NoIdentifier)
  }

  /** A concept's first coding, or the empty coding when it has none. */
  function ConceptCoding(c: CodeableConcept): (r: Coding)
    ensures c.coding == [] ==> r == NoCoding
    ensures c.coding != [] ==> r == c.coding[0]
  {
    First(c.coding).GetOr(NoCoding)
  }

  /** The first coding of an optional concept. */
  function OptionalConceptCoding(c: Option<CodeableConcept>): (r: Coding)
    ensures c.None? ==> r == NoCoding
    ensures c.Some? ==> r == ConceptCoding(c.value)
  {
    if c.Some? then ConceptCoding(c.value) else NoCoding
  }

  /** The first concept's first coding: later concepts and later codings are never read. */
  function FirstConceptCoding(cs: seq<CodeableConcept>): (r: Coding)
    ensures cs == [] ==> r == NoCoding
    ensures cs != [] ==> r == ConceptCoding(cs[0])
  {
    OptionalConceptCoding(First(cs))
  }

  const NoAddress := Address([], None, None, None, None)

  /** The first address; an empty list reads as an address with no element. */
  function FirstAddress(addresses: seq<Address>): (r: Address)
    ensures addresses == [] ==> r == NoAddress
    ensures addresses != [] ==> r == addresses[0]
  {
    First(addresses).GetOr(NoAddress)
  }

  /** `convertToLocalDate`: the calendar date of an optional instant. */
  function ToLocalDate(t: Option<Time>): (r: Option<Day>)
    ensures r.None? <==> t.None?
    ensures t.Some? ==> r.value * SecondsPerDay <= t.value < (r.value + 1) * SecondsPerDay
  {
    if t.Some? then Some(DayOf(t.value)) else None
  }

  /** An optional reference read as its reference and display pair. */
  function RefOf(r: Option<Reference>): (p: Reference)
    ensures r.None? ==> p == Reference(None, None)
    ensures r.Some? ==> p == r.value
  {
    r.GetOr(Reference(None, None))
  }
}
