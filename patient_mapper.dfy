/** The Patient projection: the active flag, the first identifier, the
    first name's family and first given, birth date and gender. */
module PatientMapper {
  import opened Wrappers
  import opened Fhir
  import opened Store

  /** The elements of a Patient the projection reads; `gender` is its code. */
  datatype Patient = Patient(
    identifier: seq<Identifier>,
    active: Option<bool>,
    name: seq<HumanName>,
    gender: Option<string>,
    birthDate: Option<Time>)

  datatype PatientColumns = PatientColumns(
    identifierSystem: Option<string>,
    identifierValue: Option<string>,
    familyName: Option<string>,
    givenName: Option<string>,
    birthDate: Option<Day>,
    gender: Option<string>)

  type PatientRow = Entity<PatientColumns>

  /** The columns `toEntity` fills. */
  function Columns(p: Patient): (c: PatientColumns)
    ensures p.name == [] ==> c.familyName.None? && c.givenName.None?
    ensures p.name != [] ==> c.familyName == p.name[0].family
    ensures p.name != [] && p.name[0].given != [] ==> c.givenName == Some(p.name[0].given[0])
    ensures p.name != [] && p.name[0].given == [] ==> c.givenName.None?
    ensures c.gender == p.gender && (c.birthDate.Some? <==> p.birthDate.Some?)
  {
    var id := FirstIdentifier(p.identifier);
    var family := if p.name != [] then p.name[0].family else None;
    var given := if p.name != [] && p.name[0].given != [] then Some(p.name[0].given[0]) else None;
    PatientColumns(id.system, id.value, family, given, ToLocalDate(p.birthDate), p.gender)
  }

  /** The row `toEntity` builds: `active` is the document's own flag, false
      when the document does not say. */
  function Project(encode: Resource<Patient> -> string, d: Resource<Patient>, now: Time): (e: PatientRow)
    ensures e.fhirId == d.id && e.fhirResource == encode(d)
    ensures e.active <==> d.body.active == Some(true)
    ensures e.versionId.None? && e.createdAt.None? && e.lastUpdated == now
  {
    Entity(d.id, None, Columns(d.body), d.body.active == Some(true), encode(d), now, None)
  }

  /** Only the first identifier, the first name and its first given name are
      read; the name's other parts never reach a column. */
  lemma LaterElementsIgnored(p: Patient, ids: seq<Identifier>, names: seq<HumanName>, given: seq<string>,
                             text: Option<string>, prefix: seq<string>, suffix: seq<string>)
    requires p.identifier != [] && p.name != [] && p.name[0].given != []
    ensures var n := p.name[0].(given := p.name[0].given + given, text := text, prefix := prefix, suffix := suffix);
      Columns(p.(identifier := p.identifier + ids, name := [n] + p.name[1..] + names)) == Columns(p)
  {
    assert (p.identifier + ids)[0] == p.identifier[0];
    assert (p.name[0].given + given)[0] == p.name[0].given[0];
  }
}
