/** The Practitioner projection: identifiers, the first name, the telecom
    list, the first qualification and the first address copied into the
    columns of the `practitioners` table. */
module PractitionerMapper {
  import opened Wrappers
  import opened Text
  import opened Seqs
  import opened Fhir
  import opened Store

  datatype Qualification = Qualification(code: Option<CodeableConcept>)

  /** The elements of a Practitioner the projection reads; `gender` is the
      administrative-gender code. */
  datatype Practitioner = Practitioner(
    identifier: seq<Identifier>,
    active: Option<bool>,
    name: seq<HumanName>,
    telecom: seq<ContactPoint>,
    gender: Option<string>,
    birthDate: Option<Time>,
    qualification: seq<Qualification>,
    address: seq<Address>)

  datatype PractitionerColumns = PractitionerColumns(
    identifierSystem: Option<string>,
    identifierValue: Option<string>,
    npi: Option<string>,
    familyName: Option<string>,
    givenName: Option<string>,
    fullName: Option<string>,
    prefix: Option<string>,
    suffix: Option<string>,
    phone: Option<string>,
    email: Option<string>,
    gender: Option<string>,
    birthDate: Option<Day>,
    specialtyCode: Option<string>,
    specialtyDisplay: Option<string>,
    specialtySystem: Option<string>,
    addressLine: Option<string>,
    city: Option<string>,
    state: Option<string>,
    postalCode: Option<string>,
    country: Option<string>)

  type PractitionerRow = Entity<PractitionerColumns>

  /** The five columns taken from the first name. */
  datatype NameColumns = NameColumns(
    family: Option<string>,
    given: Option<string>,
    full: Option<string>,
    prefix: Option<string>,
    suffix: Option<string>)

  const NoName := NameColumns(None, None, None, None, None)

  const NpiMarker := "us-npi"

  /** An identifier whose system mentions the US National Provider Identifier. */
  predicate IsNpi(id: Identifier) {
    id.system.Some? && Contains(id.system.value, NpiMarker)
  }

  /** The `npi` column: the value of the first NPI identifier. */
  function NpiOf(ids: seq<Identifier>): (r: Option<string>)
    ensures (forall j :: 0 <= j < |ids| ==> !IsNpi(ids[j])) ==> r.None?
  {
    match FirstMatching(ids, IsNpi)
    case None => None
    case Some(id) => id.value
  }

  /** The `npi` column holds the value of the identifier at the first NPI position. */
  lemma NpiAt(ids: seq<Identifier>, k: int)
    requires FirstAt(ids, IsNpi, k)
    ensures NpiOf(ids) == ids[k].value
  {
    FirstMatchingAt(ids, IsNpi, k);
  }

  /** The contents of the name builder when the name has no text: each
      present part followed or preceded by a single space. */
  function NameBuffer(prefix: Option<string>, given: Option<string>, family: Option<string>, suffix: Option<string>): string {
    (if prefix.Some? then prefix.value + " " else "")
    + (if given.Some? then given.value + " " else "")
    + (if family.Some? then family.value else "")
    + (if suffix.Some? then " " + suffix.value else "")
  }

  /** The present parts of a name, in the order prefix, given, family, suffix. */
  function PresentParts(prefix: Option<string>, given: Option<string>, family: Option<string>, suffix: Option<string>): seq<string> {
    (if prefix.Some? then [prefix.value] else [])
    + (if given.Some? then [given.value] else [])
    + (if family.Some? then [family.value] else [])
    + (if suffix.Some? then [suffix.value] else [])
  }

  /** The name columns: family and first given of the first name; the full
      name is the name's text or, without one, the trimmed builder contents,
      and only then are the first prefix and first suffix recorded. */
  function NameColumnsOf(names: seq<HumanName>): (n: NameColumns)
    ensures names == [] ==> n == NoName
    ensures names != [] ==> n.family == names[0].family && n.given == First(names[0].given)
    ensures names != [] && names[0].text.Some? ==> n.full == names[0].text && n.prefix.None? && n.suffix.None?
    ensures names != [] && names[0].text.None? ==>
      n.prefix == First(names[0].prefix) && n.suffix == First(names[0].suffix) && n.full.Some? &&
      var full := n.full.value; full == [] || (!IsJavaSpace(full[0]) && !IsJavaSpace(full[|full| - 1]))
  {
    if names == [] then NoName
    else
      var name := names[0];
      var given := First(name.given);
      if name.text.Some? then NameColumns(name.family, given, name.text, None, None)
      else
        var prefix := First(name.prefix);
        var suffix := First(name.suffix);
        NameColumns(name.family, given, Some(Trim(NameBuffer(prefix, given, name.family, suffix), IsJavaSpace)), prefix, suffix)
  }

  /** A contact point of the given system that carries a value. */
  predicate Carries(t: ContactPoint, system: ContactPointSystem) {
    t.system == Some(system) && t.value.Some?
  }

  /** The value the telecom loop leaves for a system: that of the last contact
      point of the system with a value. */
  function LastOfSystem(ts: seq<ContactPoint>, system: ContactPointSystem): (r: Option<string>)
    ensures r.None? <==> forall j :: 0 <= j < |ts| ==> !Carries(ts[j], system)
  {
    match LastMatching(ts, (t: ContactPoint) => Carries(t, system))
    case None => None
    case Some(t) => t.value
  }

  /** The column holds the value of the contact point at the last position
      carrying the system. */
  lemma LastOfSystemAt(ts: seq<ContactPoint>, system: ContactPointSystem, k: int)
    requires LastAt(ts, (t: ContactPoint) => Carries(t, system), k)
    ensures LastOfSystem(ts, system) == ts[k].value
  {
    LastMatchingAt(ts, (t: ContactPoint) => Carries(t, system), k);
  }

  /** The first qualification's code's first coding. */
  function QualificationCoding(qs: seq<Qualification>): (r: Coding)
    ensures qs == [] ==> r == NoCoding
    ensures qs != [] ==> r == OptionalConceptCoding(qs[0].code)
  {
    if qs == [] then NoCoding else OptionalConceptCoding(qs[0].code)
  }

  /** The columns `toEntity` fills. */
  function Columns(p: Practitioner): PractitionerColumns {
    var id := FirstIdentifier(p.identifier);
    var n := NameColumnsOf(p.name);
    var specialty := QualificationCoding(p.qualification);
    var address := FirstAddress(p.address);
    PractitionerColumns(
      id.system, id.value, NpiOf(p.identifier),
      n.family, n.given, n.full, n.prefix, n.suffix,
      LastOfSystem(p.telecom, Phone), LastOfSystem(p.telecom, Email),
      p.gender, ToLocalDate(p.birthDate),
      specialty.code, specialty.display, specialty.system,
      First(address.line), address.city, address.state, address.postalCode, address.country)
  }

  /** The row `toEntity` builds: `active` is the document's own flag, false
      when the document leaves it out. */
  function Project(encode: Resource<Practitioner> -> string, d: Resource<Practitioner>, now: Time): (e: PractitionerRow)
    ensures e.fhirId == d.id && e.fhirResource == encode(d)
    ensures e.active <==> d.body.active == Some(true)
    ensures e.versionId.None? && e.createdAt.None? && e.lastUpdated == now
  {
    Entity(d.id, None, Columns(d.body), d.body.active == Some(true), encode(d), now, None)
  }

  /** `toEntity`: a fresh row filled field by field. */
  method ToEntity(encode: Resource<Practitioner> -> string, d: Resource<Practitioner>, now: Time) returns (e: PractitionerRow)
    ensures e == Project(encode, d, now)
  {
    var p := d.body;
    var identifierSystem: Option<string>, identifierValue: Option<string>, npi: Option<string> := None, None, None;
    if p.identifier != [] {
      identifierSystem, identifierValue := p.identifier[0].system, p.identifier[0].value;
      npi := ScanNpi(p.identifier);
    }
    var n := CopyName(p.name);
    var phone, email := ScanTelecom(p.telecom);
    var gender: Option<string> := None;
    if p.gender.Some? {
      gender := p.gender;
    }
    var birthDate: Option<Day> := None;
    if p.birthDate.Some? {
      birthDate := Some(DayOf(p.birthDate.value));
    }
    var specialty := CopyQualification(p.qualification);
    var addressLine, city, state, postalCode, country := CopyAddress(p.address);
    var c := PractitionerColumns(
      identifierSystem, identifierValue, npi,
      n.family, n.given, n.full, n.prefix, n.suffix,
      phone, email, gender, birthDate,
      specialty.code, specialty.display, specialty.system,
      addressLine, city, state, postalCode, country);
    e := Entity(d.id, None, c, p.active == Some(true), encode(d), now, None);
  }

  /** The identifier loop: the first identifier whose system mentions NPI
      sets `npi`, and the loop stops there. */
  method ScanNpi(ids: seq<Identifier>) returns (npi: Option<string>)
    ensures npi == NpiOf(ids)
  {
    npi := None;
    var i := 0;
    while i < |ids|
      invariant 0 <= i <= |ids|
      invariant forall j :: 0 <= j < i ==> !IsNpi(ids[j])
    {
      if IsNpi(ids[i]) {
        npi := ids[i].value;
        NpiAt(ids, i);
        break;
      }
      i := i + 1;
    }
  }

  /** The name block: family and first given when present; then either the
      name's text or the full-name builder. */
  method CopyName(names: seq<HumanName>) returns (n: NameColumns)
    ensures n == NameColumnsOf(names)
  {
    n := NoName;
    if names != [] {
      var name := names[0];
      var family: Option<string> := None;
      if name.family.Some? {
        family := name.family;
      }
      var given: Option<string> := None;
      if name.given != [] {
        given := Some(name.given[0]);
      }
      if name.text.Some? {
        n := NameColumns(family, given, name.text, None, None);
      } else {
        var full, prefix, suffix := BuildFullName(name.prefix, given, family, name.suffix);
        n := NameColumns(family, given, Some(full), prefix, suffix);
      }
    }
  }

  /** The builder fed the first prefix, the given name, the family name and
      the first suffix in turn, then trimmed; the prefix and suffix it uses are
      recorded in their columns. */
  method BuildFullName(prefixes: seq<string>, given: Option<string>, family: Option<string>, suffixes: seq<string>)
    returns (full: string, prefix: Option<string>, suffix: Option<string>)
    ensures prefix == First(prefixes) && suffix == First(suffixes)
    ensures full == Trim(NameBuffer(prefix, given, family, suffix), IsJavaSpace)
  {
    prefix, suffix := None, None;
    var buffer := "";
    if prefixes != [] {
      prefix := Some(prefixes[0]);
      buffer := buffer + prefix.value + " ";
    }
    var head := buffer;
    assert head == (if prefix.Some? then prefix.value + " " else "");
    if given.Some? {
      buffer := buffer + given.value + " ";
    }
    assert buffer == head + (if given.Some? then given.value + " " else "");
    var middle := buffer;
    if family.Some? {
      buffer := buffer + family.value;
    }
    assert buffer == middle + (if family.Some? then family.value else "");
    var body := buffer;
    if suffixes != [] {
      suffix := Some(suffixes[0]);
      buffer := buffer + " " + suffix.value;
    }
    assert buffer == body + (if suffix.Some? then " " + suffix.value else "");
    assert buffer == NameBuffer(prefix, given, family, suffix);
    full := Trim(buffer, IsJavaSpace);
  }

  /** Extending the telecom list by one contact point. */
  lemma LastOfSystemSnoc(ts: seq<ContactPoint>, t: ContactPoint, system: ContactPointSystem)
    ensures LastOfSystem(ts + [t], system) == if Carries(t, system) then t.value else LastOfSystem(ts, system)
  {
    assert (ts + [t])[..|ts|] == ts;
  }

  /** The telecom loop: every contact point with a system and a value
      overwrites the phone or the email column according to its system. */
  method ScanTelecom(ts: seq<ContactPoint>) returns (phone: Option<string>, email: Option<string>)
    ensures phone == LastOfSystem(ts, Phone) && email == LastOfSystem(ts, Email)
  {
    phone, email := None, None;
    var i := 0;
    while i < |ts|
      invariant 0 <= i <= |ts|
      invariant phone == LastOfSystem(ts[..i], Phone) && email == LastOfSystem(ts[..i], Email)
    {
      var t := ts[i];
      assert ts[..i + 1] == ts[..i] + [t];
      LastOfSystemSnoc(ts[..i], t, Phone);
      LastOfSystemSnoc(ts[..i], t, Email);
      if t.system.Some? && t.value.Some? {
        if t.system.value == Phone {
          phone := t.value;
        } else if t.system.value == Email {
          email := t.value;
        }
      }
      i := i + 1;
    }
    assert ts[..i] == ts;
  }

  /** The specialty block: the first qualification's code's first coding. */
  method CopyQualification(qs: seq<Qualification>) returns (coding: Coding)
    ensures coding == QualificationCoding(qs)
  {
    coding := NoCoding;
    if qs != [] {
      var q := qs[0];
      if q.code.Some? && q.code.value.coding != [] {
        coding := q.code.value.coding[0];
      }
    }
  }

  /** The address block: the first address's first line and its other elements. */
  method CopyAddress(addresses: seq<Address>)
    returns (line: Option<string>, city: Option<string>, state: Option<string>, postalCode: Option<string>, country: Option<string>)
    ensures var a := FirstAddress(addresses);
      line == First(a.line) && city == a.city && state == a.state && postalCode == a.postalCode && country == a.country
  {
    line, city, state, postalCode, country := None, None, None, None, None;
    if addresses != [] {
      var a := addresses[0];
      if a.line != [] {
        line := Some(a.line[0]);
      }
      city, state, postalCode, country := a.city, a.state, a.postalCode, a.country;
    }
  }

  /** With a family name, the builder joins the present parts with single spaces. */
  lemma FullNameJoinsPresentParts(prefix: Option<string>, given: Option<string>, family: Option<string>, suffix: Option<string>)
    requires family.Some?
    ensures NameBuffer(prefix, given, family, suffix) == Join(PresentParts(prefix, given, family, suffix), " ")
  {
    var front := (if prefix.Some? then [prefix.value] else []) + (if given.Some? then [given.value] else []);
    var f := family.value;
    assert Join(front + [f], " ") == (if prefix.Some? then prefix.value + " " else "") + (if given.Some? then given.value + " " else "") + f by {
      if prefix.Some? && given.Some? {
        JoinSnoc([prefix.value], given.value, " ");
        JoinSnoc(front, f, " ");
      } else if front != [] {
        JoinSnoc(front, f, " ");
      }
    }
    if suffix.Some? {
      JoinSnoc(front + [f], suffix.value, " ");
      assert PresentParts(prefix, given, family, suffix) == front + [f] + [suffix.value];
    } else {
      assert PresentParts(prefix, given, family, suffix) == front + [f];
    }
  }

  /** Without a family name, a given name and a suffix are separated by two
      spaces: the builder writes the space after the given name and the one
      before the suffix. */
  lemma MissingFamilyDoubleSpace(given: string, suffix: string)
    ensures NameBuffer(None, Some(given), None, Some(suffix)) == given + "  " + suffix
  {
    assert given + " " + " " + suffix == given + "  " + suffix;
  }

  /** Identifiers after the first NPI identifier never change the `npi` column. */
  lemma {:induction false} LaterIdentifiersIgnored(ids: seq<Identifier>, more: seq<Identifier>, k: int)
    requires FirstAt(ids, IsNpi, k)
    ensures NpiOf(ids + more) == ids[k].value
  {
    assert FirstAt(ids + more, IsNpi, k);
    NpiAt(ids + more, k);
  }

  /** A contact point without a system or without a value changes neither the
      phone nor the email column. */
  lemma IncompleteContactIgnored(ts: seq<ContactPoint>, t: ContactPoint)
    requires t.system.None? || t.value.None?
    ensures LastOfSystem(ts + [t], Phone) == LastOfSystem(ts, Phone)
    ensures LastOfSystem(ts + [t], Email) == LastOfSystem(ts, Email)
  {
    LastOfSystemSnoc(ts, t, Phone);
    LastOfSystemSnoc(ts, t, Email);
  }

  /** Only the first name, qualification and address are read: whatever
      follows them never reaches a column. */
  lemma LaterElementsIgnored(p: Practitioner, names: seq<HumanName>, qs: seq<Qualification>, addresses: seq<Address>)
    requires p.name != [] && p.qualification != [] && p.address != []
    ensures Columns(p.(name := p.name + names, qualification := p.qualification + qs, address := p.address + addresses))
         == Columns(p)
  {
    assert (p.name + names)[0] == p.name[0];
    assert (p.qualification + qs)[0] == p.qualification[0];
    assert (p.address + addresses)[0] == p.address[0];
  }
}
