/** The patient portal's derived values: the selected patient's reference
    and display name, and the per-patient counters over the loaded
    appointment and claim lists. Resources are the fields these read from
    the JSON the portal fetched. */
module PatientPortal {
  import opened Wrappers
  import opened Text
  import opened Seqs
  import opened Fhir

  /** A name as JSON: `given` and `family` may be missing. */
  datatype PortalName = PortalName(given: Option<seq<string>>, family: Option<string>)

  /** The selected patient: `id` and `name` may be missing. */
  datatype PortalPatient = PortalPatient(id: Option<string>, name: Option<seq<PortalName>>)

  datatype Participant = Participant(actorReference: Option<string>)

  /** An appointment: `start` is None when missing, empty or not a date. */
  datatype PortalAppointment = PortalAppointment(participant: Option<seq<Participant>>, start: Option<Time>)

  datatype PortalClaim = PortalClaim(patientReference: Option<string>, status: Option<string>)

  /** A template literal renders a missing value as "undefined". */
  function Render(s: Option<string>): (r: string)
    ensures s.Some? ==> r == s.value
    ensures s.None? ==> r == "undefined"
  {
    s.GetOr("undefined")
  }

  function Reference(patientId: string): (r: string)
    ensures |r| == |"Patient/"| + |patientId| && StartsWith(r, "Patient/") && r[|"Patient/"|..] == patientId
  {
    "Patient/" + patientId
  }

  /** The `patientReference` getter. */
  function PatientReference(current: Option<PortalPatient>): (r: Option<string>)
    ensures r.None? <==> current.None?
    ensures r.Some? ==> r.value == Reference(Render(current.value.id))
  {
    match current
    case None => None
    case Some(p) => Some(Reference(Render(p.id)))
  }

  /** `x || ''` for a string: a missing value becomes empty. */
  function OrEmpty(s: Option<string>): (r: string)
    ensures s.Some? ==> r == s.value
    ensures s.None? ==> r == ""
  {
    s.GetOr("")
  }

  /** The text `patientName` builds from a name before trimming. */
  function NameText(n: PortalName): string {
    var given := if n.given.Some? then Join(n.given.value, " ") else "";
    given + " " + OrEmpty(n.family)
  }

  /** The `patientName` getter; None where the getter throws, because the
      name list is present but empty. */
  function PatientName(current: Option<PortalPatient>): (r: Option<string>)
    ensures r.None? <==> current.Some? && current.value.name == Some([])
    ensures current.None? || current.value.name.None? ==> r == Some("Unknown")
    ensures r.Some? && r != Some("Unknown") ==> r.value == [] || (!IsJsSpace(r.value[0]) && !IsJsSpace(r.value[|r.value| - 1]))
  {
    if current.None? || current.value.name.None? then Some("Unknown")
    else if current.value.name.value == [] then None
    else Some(Trim(NameText(current.value.name.value[0]), IsJsSpace))
  }

  /** A string whose ends are not white space is left alone by `trim`. */
  lemma TrimKeepsBoundedText(s: string)
    requires s != [] && !IsJsSpace(s[0]) && !IsJsSpace(s[|s| - 1])
    ensures Trim(s, IsJsSpace) == s
  {
    var i := LeadingSpaces(s, IsJsSpace);
    var j := TrailingSpaces(s, IsJsSpace);
    assert i == 0 && j == 0;
  }

  /** With given names and a family name, the display name is the given
      names separated by spaces, a space, and the family name. */
  lemma GivenThenFamily(p: PortalPatient, given: seq<string>, family: string)
    requires p.name.Some? && p.name.value != [] && p.name.value[0] == PortalName(Some(given), Some(family))
    requires var g := Join(given, " "); g != [] && !IsJsSpace(g[0])
    requires family != [] && !IsJsSpace(family[|family| - 1])
    ensures PatientName(Some(p)) == Some(Join(given, " ") + " " + family)
  {
    var s := Join(given, " ") + " " + family;
    assert s[0] == Join(given, " ")[0] && s[|s| - 1] == family[|family| - 1];
    TrimKeepsBoundedText(s);
  }

  /** Without given names the separating space is trimmed away and the
      family name stands alone. */
  lemma FamilyAlone(p: PortalPatient, family: string)
    requires p.name.Some? && p.name.value != [] && p.name.value[0].family == Some(family)
    requires p.name.value[0].given.None? || p.name.value[0].given == Some([])
    requires family != [] && !IsJsSpace(family[0]) && !IsJsSpace(family[|family| - 1])
    ensures PatientName(Some(p)) == Some(family)
  {
    var s := " " + family;
    assert OrEmpty(p.name.value[0].family) == family;
    assert NameText(p.name.value[0]) == s;
    var i := LeadingSpaces(s, IsJsSpace);
    assert i == 1 by {
      assert IsJsSpace(s[0]) && s[1] == family[0];
    }
    var j := TrailingSpaces(s, IsJsSpace);
    assert j == 0 by {
      assert s[|s| - 1] == family[|family| - 1];
    }
    assert Trim(s, IsJsSpace) == s[i..|s| - j];
    assert s[1..] == family;
    assert Trim(NameText(p.name.value[0]), IsJsSpace) == family;
  }

  /** A name with neither given nor family shows as the empty string, not
      as "Unknown". */
  lemma EmptyNameIsBlank(p: PortalPatient)
    requires p.name.Some? && p.name.value != [] && p.name.value[0] == PortalName(None, None)
    ensures PatientName(Some(p)) == Some("")
  {
    assert NameText(p.name.value[0]) == " ";
    assert LeadingSpaces(" ", IsJsSpace) == 1 by {
      assert IsJsSpace(" "[0]);
    }
  }

  /** Some participant's actor is the patient. */
  predicate IsPatientAppointment(a: PortalAppointment, patientId: string) {
    a.participant.Some? && exists p :: p in a.participant.value && p.actorReference == Some(Reference(patientId))
  }

  predicate IsUpcoming(a: PortalAppointment, patientId: string, now: Time) {
    IsPatientAppointment(a, patientId) && a.start.Some? && a.start.value >= now
  }

  /** `getUpcomingAppointmentCount`: the patient's appointments starting at
      or after `now`, which the caller supplies. */
  function UpcomingAppointmentCount(appointments: seq<PortalAppointment>, patientId: string, now: Time): (n: nat)
    ensures n <= |appointments|
    ensures n == 0 <==> forall a :: a in appointments ==> !IsUpcoming(a, patientId, now)
  {
    var upcoming := Select(appointments, (a: PortalAppointment) => IsUpcoming(a, patientId, now));
    assert upcoming != [] ==> upcoming[0] in upcoming;
    |upcoming|
  }

  /** A later clock never counts more upcoming appointments. */
  lemma UpcomingCountShrinksOverTime(appointments: seq<PortalAppointment>, patientId: string, earlier: Time, later: Time)
    requires earlier <= later
    ensures UpcomingAppointmentCount(appointments, patientId, later) <= UpcomingAppointmentCount(appointments, patientId, earlier)
  {
    SelectWeaker(appointments, (a: PortalAppointment) => IsUpcoming(a, patientId, later),
      (a: PortalAppointment) => IsUpcoming(a, patientId, earlier));
  }

  /** Counting over two loaded lists adds their counts. */
  lemma UpcomingCountAdds(a: seq<PortalAppointment>, b: seq<PortalAppointment>, patientId: string, now: Time)
    ensures UpcomingAppointmentCount(a + b, patientId, now) ==
      UpcomingAppointmentCount(a, patientId, now) + UpcomingAppointmentCount(b, patientId, now)
  {
    SelectAppend(a, b, (x: PortalAppointment) => IsUpcoming(x, patientId, now));
  }

  predicate IsPatientClaim(c: PortalClaim, patientId: string) {
    c.patientReference == Some(Reference(patientId))
  }

  /** A claim is pending when its status is exactly "active". */
  predicate IsPending(c: PortalClaim, patientId: string) {
    IsPatientClaim(c, patientId) && c.status == Some("active")
  }

  /** `getPendingClaimsCount`. */
  function PendingClaimsCount(claims: seq<PortalClaim>, patientId: string): (n: nat)
    ensures n <= |claims|
    ensures n == 0 <==> forall c :: c in claims ==> !IsPending(c, patientId)
  {
    var pending := Select(claims, (c: PortalClaim) => IsPending(c, patientId));
    assert pending != [] ==> pending[0] in pending;
    |pending|
  }

  /** Counting over two loaded lists adds their counts; with the zero case of
      the contract this fixes the count as the number of pending claims. */
  lemma PendingCountAdds(a: seq<PortalClaim>, b: seq<PortalClaim>, patientId: string)
    ensures PendingClaimsCount(a + b, patientId) == PendingClaimsCount(a, patientId) + PendingClaimsCount(b, patientId)
  {
    SelectAppend(a, b, (c: PortalClaim) => IsPending(c, patientId));
  }

  /** The pending count never exceeds the number of the patient's claims. */
  lemma PendingAtMostPatientClaims(claims: seq<PortalClaim>, patientId: string)
    ensures PendingClaimsCount(claims, patientId) <= |Select(claims, (c: PortalClaim) => IsPatientClaim(c, patientId))|
  {
    SelectWeaker(claims, (c: PortalClaim) => IsPending(c, patientId), (c: PortalClaim) => IsPatientClaim(c, patientId));
  }

  /** The counters match the reference `patientReference` produces for a
      selected patient with that id. */
  lemma CountersUseSelectedReference(p: PortalPatient, c: PortalClaim)
    requires p.id.Some?
    ensures IsPatientClaim(c, p.id.value) <==> c.patientReference == PatientReference(Some(p))
  {
  }
}
