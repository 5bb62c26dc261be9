/** The MedicationRequest projection: status, intent, the medication concept,
    subject and requester, the first dosage text and the dispense request
    copied into the columns of the `medication_requests` table. */
module MedicationRequestMapper {
  import opened Wrappers
  import opened Seqs
  import opened Fhir
  import opened Store

  datatype Dosage = Dosage(text: Option<string>)

  /** `quantity` and `expectedSupplyDuration` are both quantities. */
  datatype DispenseRequest = DispenseRequest(
    quantity: Option<Quantity>,
    numberOfRepeatsAllowed: Option<nat>,
    expectedSupplyDuration: Option<Quantity>)

  /** The elements of a MedicationRequest the projection reads; `status` and
      `intent` are their codes, and `medication` is `medicationCodeableConcept`
      (a medication given by reference reads as absent). */
  datatype MedicationRequest = MedicationRequest(
    status: Option<string>,
    intent: Option<string>,
    medication: Option<CodeableConcept>,
    subject: Option<Reference>,
    requester: Option<Reference>,
    authoredOn: Option<Time>,
    dosageInstruction: seq<Dosage>,
    dispenseRequest: Option<DispenseRequest>)

  datatype MedicationRequestColumns = MedicationRequestColumns(
    patientReference: Option<string>,
    patientDisplay: Option<string>,
    requesterReference: Option<string>,
    requesterDisplay: Option<string>,
    medicationCode: Option<string>,
    medicationDisplay: Option<string>,
    medicationSystem: Option<string>,
    status: Option<string>,
    intent: Option<string>,
    authoredOn: Option<Time>,
    dosageText: Option<string>,
    quantityValue: Option<Decimal>,
    quantityUnit: Option<string>,
    refillsAllowed: Option<int>,
    supplyDurationValue: Option<Decimal>,
    supplyDurationUnit: Option<string>)

  type MedicationRequestRow = Entity<MedicationRequestColumns>

  /** The three medication columns. */
  datatype MedicationColumns = MedicationColumns(code: Option<string>, display: Option<string>, system: Option<string>)

  const NoMedication := MedicationColumns(None, None, None)

  const NoQuantity := Quantity(None, None)

  /** The medication columns: code and system from the first coding; the
      display is the concept's text, or the first coding's display when the
      concept has no text. */
  function MedicationOf(m: Option<CodeableConcept>): (r: MedicationColumns)
    ensures m.None? ==> r == NoMedication
    ensures m.Some? ==> r.code == ConceptCoding(m.value).code && r.system == ConceptCoding(m.value).system
    ensures m.Some? && m.value.text.Some? ==> r.display == m.value.text
    ensures m.Some? && m.value.text.None? ==> r.display == ConceptCoding(m.value).display
  {
    if m.None? then NoMedication
    else
      var coding := ConceptCoding(m.value);
      MedicationColumns(coding.code, if m.value.text.Some? then m.value.text else coding.display, coding.system)
  }

  /** An optional quantity read as its value and unit; absence leaves both null. */
  function QuantityOf(q: Option<Quantity>): (r: Quantity)
    ensures q.None? ==> r == NoQuantity
    ensures q.Some? ==> r == q.value
  {
    q.GetOr(NoQuantity)
  }

  /** The columns `toEntity` fills. */
  function Columns(m: MedicationRequest): MedicationRequestColumns {
    var medication := MedicationOf(m.medication);
    var subject := RefOf(m.subject);
    var requester := RefOf(m.requester);
    var dosage := First(m.dosageInstruction);
    var quantity := QuantityOf(if m.dispenseRequest.Some? then m.dispenseRequest.value.quantity else None);
    var duration := QuantityOf(if m.dispenseRequest.Some? then m.dispenseRequest.value.expectedSupplyDuration else None);
    var refills := if m.dispenseRequest.Some? && m.dispenseRequest.value.numberOfRepeatsAllowed.Some?
                   then Some(m.dispenseRequest.value.numberOfRepeatsAllowed.value as int) else None;
    MedicationRequestColumns(
      subject.reference, subject.display, requester.reference, requester.display,
      medication.code, medication.display, medication.system,
      m.status, m.intent, m.authoredOn,
      if dosage.Some? then dosage.value.text else None,
      quantity.value, quantity.unit, refills, duration.value, duration.unit)
  }

  /** The row `toEntity` builds: active is always true. */
  function Project(encode: Resource<MedicationRequest> -> string, d: Resource<MedicationRequest>, now: Time): (e: MedicationRequestRow)
    ensures e.fhirId == d.id && e.fhirResource == encode(d) && e.active
    ensures e.versionId.None? && e.createdAt.None? && e.lastUpdated == now
  {
    Entity(d.id, None, Columns(d.body), true, encode(d), now, None)
  }

  /** `toEntity`: a fresh row filled field by field. */
  method ToEntity(encode: Resource<MedicationRequest> -> string, d: Resource<MedicationRequest>, now: Time)
    returns (e: MedicationRequestRow)
    ensures e == Project(encode, d, now)
  {
    var m := d.body;
    var status: Option<string> := None;
    if m.status.Some? {
      status := m.status;
    }
    var intent: Option<string> := None;
    if m.intent.Some? {
      intent := m.intent;
    }
    var medication := CopyMedication(m.medication);
    var patientReference: Option<string>, patientDisplay: Option<string> := None, None;
    if m.subject.Some? {
      patientReference, patientDisplay := m.subject.value.reference, m.subject.value.display;
    }
    var requesterReference: Option<string>, requesterDisplay: Option<string> := None, None;
    if m.requester.Some? {
      requesterReference, requesterDisplay := m.requester.value.reference, m.requester.value.display;
    }
    var authoredOn: Option<Time> := None;
    if m.authoredOn.Some? {
      authoredOn := m.authoredOn;
    }
    var dosageText: Option<string> := None;
    if m.dosageInstruction != [] {
      var dosage := m.dosageInstruction[0];
      if dosage.text.Some? {
        dosageText := dosage.text;
      }
    }
    var quantity, refills, duration := CopyDispenseRequest(m.dispenseRequest);
    var c := MedicationRequestColumns(
      patientReference, patientDisplay, requesterReference, requesterDisplay,
      medication.code, medication.display, medication.system,
      status, intent, authoredOn, dosageText,
      quantity.value, quantity.unit, refills, duration.value, duration.unit);
    e := Entity(d.id, None, c, true, encode(d), now, None);
  }

  /** The medication block: the text is recorded first, and the first
      coding's display overwrites the display only while it is still null. */
  method CopyMedication(m: Option<CodeableConcept>) returns (r: MedicationColumns)
    ensures r == MedicationOf(m)
  {
    r := NoMedication;
    if m.Some? {
      var medication := m.value;
      var display: Option<string> := None;
      if medication.text.Some? {
        display := medication.text;
      }
      var code: Option<string>, system: Option<string> := None, None;
      if medication.coding != [] {
        var coding := medication.coding[0];
        code, system := coding.code, coding.system;
        if display.None? && coding.display.Some? {
          display := coding.display;
        }
      }
      r := MedicationColumns(code, display, system);
    }
  }

  /** The dispense-request block: quantity value and unit, the number of
      repeats and the supply-duration value and unit, each set on its own. */
  method CopyDispenseRequest(dr: Option<DispenseRequest>) returns (quantity: Quantity, refills: Option<int>, duration: Quantity)
    ensures quantity == QuantityOf(if dr.Some? then dr.value.quantity else None)
    ensures duration == QuantityOf(if dr.Some? then dr.value.expectedSupplyDuration else None)
    ensures refills == if dr.Some? && dr.value.numberOfRepeatsAllowed.Some? then Some(dr.value.numberOfRepeatsAllowed.value as int) else None
  {
    quantity, refills, duration := NoQuantity, None, NoQuantity;
    if dr.Some? {
      var request := dr.value;
      if request.quantity.Some? {
        var value: Option<Decimal>, unit: Option<string> := None, None;
        if request.quantity.value.value.Some? {
          value := request.quantity.value.value;
        }
        if request.quantity.value.unit.Some? {
          unit := request.quantity.value.unit;
        }
        quantity := Quantity(value, unit);
      }
      if request.numberOfRepeatsAllowed.Some? {
        refills := Some(request.numberOfRepeatsAllowed.value as int);
      }
      if request.expectedSupplyDuration.Some? {
        var value: Option<Decimal>, unit: Option<string> := None, None;
        if request.expectedSupplyDuration.value.value.Some? {
          value := request.expectedSupplyDuration.value.value;
        }
        if request.expectedSupplyDuration.value.unit.Some? {
          unit := request.expectedSupplyDuration.value.unit;
        }
        duration := Quantity(value, unit);
      }
    }
  }

  /** The quantity's value and unit reach their columns independently:
      changing one never changes the other's column, and either may be set
      while the other stays null. */
  lemma QuantityPartsIndependent(m: MedicationRequest, dr: DispenseRequest, q: Quantity, unit: Option<string>)
    requires m.dispenseRequest == Some(dr) && dr.quantity == Some(q)
    ensures var m' := m.(dispenseRequest := Some(dr.(quantity := Some(q.(unit := unit)))));
      Columns(m').quantityValue == Columns(m).quantityValue == q.value && Columns(m').quantityUnit == unit
  {
  }

  /** Only the first dosage instruction is read; a first instruction without
      text leaves `dosageText` null whatever later instructions say. */
  lemma LaterDosagesIgnored(m: MedicationRequest, more: seq<Dosage>)
    requires m.dosageInstruction != []
    ensures Columns(m.(dosageInstruction := m.dosageInstruction + more)).dosageText == m.dosageInstruction[0].text
  {
    assert (m.dosageInstruction + more)[0] == m.dosageInstruction[0];
  }
}
