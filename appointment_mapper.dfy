/** The Appointment projection: the document's searchable elements copied
    into the columns of the `appointments` table. */
module AppointmentMapper {
  import opened Wrappers
  import opened Text
  import opened Seqs
  import opened Fhir
  import opened Store

  datatype Participant = Participant(actor: Option<Reference>)

  datatype Appointment = Appointment(
    identifier: seq<Identifier>,
    status: Option<string>,
    serviceCategory: seq<CodeableConcept>,
    serviceType: seq<CodeableConcept>,
    specialty: seq<CodeableConcept>,
    appointmentType: Option<CodeableConcept>,
    reasonCode: seq<CodeableConcept>,
    priority: Option<nat>,
    description: Option<string>,
    start: Option<Time>,
    end: Option<Time>,
    minutesDuration: Option<nat>,
    participant: seq<Participant>,
    comment: Option<string>)

  datatype AppointmentColumns = AppointmentColumns(
    identifierSystem: Option<string>,
    identifierValue: Option<string>,
    status: Option<string>,
    serviceCategoryCode: Option<string>,
    serviceCategoryDisplay: Option<string>,
    serviceTypeCode: Option<string>,
    serviceTypeDisplay: Option<string>,
    specialtyCode: Option<string>,
    specialtyDisplay: Option<string>,
    appointmentTypeCode: Option<string>,
    appointmentTypeDisplay: Option<string>,
    reasonCode: Option<string>,
    reasonDisplay: Option<string>,
    priority: Option<int>,
    description: Option<string>,
    startTime: Option<Time>,
    endTime: Option<Time>,
    minutesDuration: Option<int>,
    patientReference: Option<string>,
    patientDisplay: Option<string>,
    practitionerReference: Option<string>,
    practitionerDisplay: Option<string>,
    locationReference: Option<string>,
    locationDisplay: Option<string>,
    comment: Option<string>)

  type AppointmentRow = Entity<AppointmentColumns>

  const NoColumns := AppointmentColumns(
    None, None, None, None, None, None, None, None, None, None, None, None, None,
    None, None, None, None, None, None, None, None, None, None, None, None)

  const PatientPrefix := "Patient/"
  const PractitionerPrefix := "Practitioner/"
  const LocationPrefix := "Location/"

  /** The participant's actor has a reference that starts with `prefix`. */
  predicate InRole(p: Participant, prefix: string) {
    p.actor.Some? && p.actor.value.reference.Some? && StartsWith(p.actor.value.reference.value, prefix)
  }

  /** The actor of the last participant in the role, which the loop leaves in the columns. */
  function LastInRole(ps: seq<Participant>, prefix: string): (r: Option<Reference>)
    ensures r.None? <==> forall j :: 0 <= j < |ps| ==> !InRole(ps[j], prefix)
  {
    match LastMatching(ps, p => InRole(p, prefix))
    case None => None
    case Some(p) => p.actor
  }

  /** `convertToLocalDateTime`: null stays null; the zone is taken as UTC, so the
      instant's seconds are kept. */
  function ToLocalDateTime(t: Option<Time>): (r: Option<Time>)
    ensures r.None? <==> t.None?
  {
    t
  }

  /** The columns `toEntity` fills before and after the participant loop:
      first identifier, first concept's first coding, optional scalars. */
  function ElementColumns(a: Appointment): (c: AppointmentColumns)
    ensures NoRoles(c)
  {
    var id := FirstIdentifier(a.identifier);
    var category := FirstConceptCoding(a.serviceCategory);
    var serviceType := FirstConceptCoding(a.serviceType);
    var specialty := FirstConceptCoding(a.specialty);
    var appointmentType := OptionalConceptCoding(a.appointmentType);
    var reason := FirstConceptCoding(a.reasonCode);
    AppointmentColumns(
      id.system, id.value, a.status,
      category.code, category.display,
      serviceType.code, serviceType.display,
      specialty.code, specialty.display,
      appointmentType.code, appointmentType.display,
      reason.code, reason.display,
      if a.priority.Some? then Some(a.priority.value as int) else None,
      a.description,
      ToLocalDateTime(a.start), ToLocalDateTime(a.end),
      if a.minutesDuration.Some? then Some(a.minutesDuration.value as int) else None,
      None, None, None, None, None, None,
      a.comment)
  }

  predicate NoRoles(c: AppointmentColumns) {
    c.patientReference.None? && c.patientDisplay.None? &&
    c.practitionerReference.None? && c.practitionerDisplay.None? &&
    c.locationReference.None? && c.locationDisplay.None?
  }

  /** The role columns: each role's columns come from its last participant. */
  function WithRoles(c: AppointmentColumns, ps: seq<Participant>): AppointmentColumns {
    var patient := RefOf(LastInRole(ps, PatientPrefix));
    var practitioner := RefOf(LastInRole(ps, PractitionerPrefix));
    var location := RefOf(LastInRole(ps, LocationPrefix));
    c.(patientReference := patient.reference, patientDisplay := patient.display,
       practitionerReference := practitioner.reference, practitionerDisplay := practitioner.display,
       locationReference := location.reference, locationDisplay := location.display)
  }

  /** The row `toEntity` builds. */
  function Project(encode: Resource<Appointment> -> string, d: Resource<Appointment>, now: Time): (e: AppointmentRow)
    ensures e.fhirId == d.id && e.fhirResource == encode(d) && e.active
    ensures e.versionId.None? && e.createdAt.None? && e.lastUpdated == now
  {
    Entity(d.id, None, WithRoles(ElementColumns(d.body), d.body.participant), true, encode(d), now, None)
  }

  /** No reference starts with two of the three role prefixes, so the
      `else if` chain and three independent tests agree. */
  lemma PrefixesExclusive(s: string)
    ensures !(StartsWith(s, PatientPrefix) && StartsWith(s, PractitionerPrefix))
    ensures !(StartsWith(s, PatientPrefix) && StartsWith(s, LocationPrefix))
    ensures !(StartsWith(s, PractitionerPrefix) && StartsWith(s, LocationPrefix))
  {
    if StartsWith(s, PatientPrefix) {
      assert s[1] == 'a';
    }
    if StartsWith(s, PractitionerPrefix) {
      assert s[0] == 'P';
    }
  }

  /** Extending the participant list by one element: the role's last match is
      the new element when it is in the role, and unchanged otherwise. */
  lemma LastInRoleSnoc(ps: seq<Participant>, p: Participant, prefix: string)
    ensures LastInRole(ps + [p], prefix) == if InRole(p, prefix) then p.actor else LastInRole(ps, prefix)
  {
    assert (ps + [p])[..|ps|] == ps;
  }

  /** `toEntity`: a fresh row filled field by field. */
  method ToEntity(encode: Resource<Appointment> -> string, d: Resource<Appointment>, now: Time) returns (e: AppointmentRow)
    ensures e == Project(encode, d, now)
  {
    var c := CopyElements(d.body);
    c := RouteParticipants(c, d.body.participant);
    e := Entity(d.id, None, c, true, encode(d), now, None);
  }

  /** The element-by-element assignments of `toEntity`, each guarded by the
      element's presence; every column starts out null. */
  method CopyElements(a: Appointment) returns (c: AppointmentColumns)
    ensures c == ElementColumns(a)
  {
    var identifierSystem: Option<string>, identifierValue: Option<string> := None, None;
    if a.identifier != [] {
      var id := a.identifier[0];
      identifierSystem, identifierValue := id.system, id.value;
    }
    assert identifierSystem == FirstIdentifier(a.identifier).system;
    assert identifierValue == FirstIdentifier(a.identifier).value;
    var status: Option<string> := None;
    if a.status.Some? {
      status := a.status;
    }
    var categoryCode, categoryDisplay := CopyFirstCoding(a.serviceCategory);
    var typeCode, typeDisplay := CopyFirstCoding(a.serviceType);
    var specialtyCode, specialtyDisplay := CopyFirstCoding(a.specialty);
    var appointmentTypeCode: Option<string>, appointmentTypeDisplay: Option<string> := None, None;
    if a.appointmentType.Some? && a.appointmentType.value.coding != [] {
      var coding := a.appointmentType.value.coding[0];
      appointmentTypeCode, appointmentTypeDisplay := coding.code, coding.display;
    }
    assert appointmentTypeCode == OptionalConceptCoding(a.appointmentType).code;
    assert appointmentTypeDisplay == OptionalConceptCoding(a.appointmentType).display;
    var reasonCode, reasonDisplay := CopyFirstCoding(a.reasonCode);
    var priority: Option<int> := None;
    if a.priority.Some? {
      priority := Some(a.priority.value as int);
    }
    var description: Option<string> := None;
    if a.description.Some? {
      description := a.description;
    }
    var startTime: Option<Time>, endTime: Option<Time> := None, None;
    if a.start.Some? {
      startTime := ToLocalDateTime(a.start);
    }
    if a.end.Some? {
      endTime := ToLocalDateTime(a.end);
    }
    var minutesDuration: Option<int> := None;
    if a.minutesDuration.Some? {
      minutesDuration := Some(a.minutesDuration.value as int);
    }
    var comment: Option<string> := None;
    if a.comment.Some? {
      comment := a.comment;
    }
    c := AppointmentColumns(
      identifierSystem, identifierValue, status,
      categoryCode, categoryDisplay, typeCode, typeDisplay,
      specialtyCode, specialtyDisplay, appointmentTypeCode, appointmentTypeDisplay,
      reasonCode, reasonDisplay, priority, description, startTime, endTime, minutesDuration,
      None, None, None, None, None, None, comment);
  }

  /** The repeated block of `toEntity`: the first concept's first coding, when
      both exist, sets a code column and a display column. */
  method CopyFirstCoding(cs: seq<CodeableConcept>) returns (code: Option<string>, display: Option<string>)
    ensures code == FirstConceptCoding(cs).code && display == FirstConceptCoding(cs).display
  {
    code, display := None, None;
    if cs != [] && cs[0].coding != [] {
      var coding := cs[0].coding[0];
      code, display := coding.code, coding.display;
    }
  }

  /** The participant loop: a participant whose actor reference starts with a
      role prefix overwrites that role's reference and display. */
  method RouteParticipants(c0: AppointmentColumns, ps: seq<Participant>) returns (c: AppointmentColumns)
    requires NoRoles(c0)
    ensures c == WithRoles(c0, ps)
  {
    c := c0;
    var i := 0;
    while i < |ps|
      invariant 0 <= i <= |ps|
      invariant c == WithRoles(c0, ps[..i])
    {
      var participant := ps[i];
      assert ps[..i + 1] == ps[..i] + [participant];
      LastInRoleSnoc(ps[..i], participant, PatientPrefix);
      LastInRoleSnoc(ps[..i], participant, PractitionerPrefix);
      LastInRoleSnoc(ps[..i], participant, LocationPrefix);
      if participant.actor.Some? && participant.actor.value.reference.Some? {
        var reference := participant.actor.value.reference.value;
        var display := participant.actor.value.display;
        PrefixesExclusive(reference);
        if StartsWith(reference, PatientPrefix) {
          c := c.(patientReference := Some(reference), patientDisplay := display);
        } else if StartsWith(reference, PractitionerPrefix) {
          c := c.(practitionerReference := Some(reference), practitionerDisplay := display);
        } else if StartsWith(reference, LocationPrefix) {
          c := c.(locationReference := Some(reference), locationDisplay := display);
        }
      }
      i := i + 1;
    }
    assert ps[..i] == ps;
  }

  /** The patient columns come from the last participant whose actor reference
      starts with "Patient/", and from no other participant. */
  lemma PatientColumnsFromLastPatient(encode: Resource<Appointment> -> string, d: Resource<Appointment>, now: Time, k: int)
    requires LastAt(d.body.participant, p => InRole(p, PatientPrefix), k)
    ensures Project(encode, d, now).columns.patientReference == d.body.participant[k].actor.value.reference
    ensures Project(encode, d, now).columns.patientDisplay == d.body.participant[k].actor.value.display
  {
    var ps := d.body.participant;
    var m := LastMatching(ps, p => InRole(p, PatientPrefix));
    var k' :| LastAt(ps, p => InRole(p, PatientPrefix), k') && ps[k'] == m.value;
    assert k' == k;
  }

  /** A participant with no actor reference, or a reference outside the three
      roles, changes no column. */
  lemma OtherParticipantsIgnored(encode: Resource<Appointment> -> string, d: Resource<Appointment>, p: Participant, now: Time)
    requires !InRole(p, PatientPrefix) && !InRole(p, PractitionerPrefix) && !InRole(p, LocationPrefix)
    ensures var d' := d.(body := d.body.(participant := d.body.participant + [p]));
      Project(encode, d', now).columns == Project(encode, d, now).columns
  {
    LastInRoleSnoc(d.body.participant, p, PatientPrefix);
    LastInRoleSnoc(d.body.participant, p, PractitionerPrefix);
    LastInRoleSnoc(d.body.participant, p, LocationPrefix);
  }

  /** Only the first identifier and each concept list's first concept are
      read: whatever follows them never reaches a column. */
  lemma LaterElementsIgnored(encode: Resource<Appointment> -> string, d: Resource<Appointment>, now: Time,
                             ids: seq<Identifier>, categories: seq<CodeableConcept>, types: seq<CodeableConcept>,
                             specialties: seq<CodeableConcept>, reasons: seq<CodeableConcept>)
    requires d.body.identifier != [] && d.body.serviceCategory != [] && d.body.serviceType != []
    requires d.body.specialty != [] && d.body.reasonCode != []
    ensures var d' := d.(body := d.body.(identifier := d.body.identifier + ids,
                                         serviceCategory := d.body.serviceCategory + categories,
                                         serviceType := d.body.serviceType + types,
                                         specialty := d.body.specialty + specialties,
                                         reasonCode := d.body.reasonCode + reasons));
      Project(encode, d', now).columns == Project(encode, d, now).columns
  {
    var b := d.body;
    assert (b.identifier + ids)[0] == b.identifier[0];
    assert (b.serviceCategory + categories)[0] == b.serviceCategory[0];
    assert (b.serviceType + types)[0] == b.serviceType[0];
    assert (b.specialty + specialties)[0] == b.specialty[0];
    assert (b.reasonCode + reasons)[0] == b.reasonCode[0];
  }
}
