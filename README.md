# FHIR R4 resource store — a Dafny model

This project models the core of a set of six HL7 FHIR R4 services: Appointment,
Practitioner, MedicationRequest, Claim, Coverage and Patient. It also models
the date-parameter parsing of the Appointment search endpoint, the exception
handler that turns failures into OperationOutcome responses, and the patient
portal's derived values.

Each service follows the same pipeline.

- **Mapper.** `toEntity` projects a FHIR document onto a table row. The row
  holds bookkeeping fields (`fhirId`, `versionId`, `active`, `fhirResource`,
  `lastUpdated`, `createdAt`) and family-specific search columns. `toFhir`
  re-parses the stored payload.
- **Repository.** Finders filter the table, usually on `active = true`, and
  some sort the result. `persist` writes a row and `softDelete` clears
  `active`.
- **Service.** create, update, get and delete. Search dispatches on the first
  non-empty criterion.

## Layout

| file | models |
|---|---|
| `wrappers.dfy` | `Option`, `Result` |
| `text.dfy` | substring, ASCII lower-casing, Java and JavaScript `trim`, `join`, decimal strings of naturals |
| `seqs.dfy` | filtering with multiplicities (`Select`, `Exactly`), insertion sort by a total preorder, null-first and null-last orders, first and last match |
| `fhir.dfy` | the FHIR datatypes the mappers read (Identifier, CodeableConcept, Reference, Period, HumanName, ContactPoint, Address, Meta, …), a resource as id+meta+body, date conversion |
| `store.dfy` | a row (`Entity<C>` with family columns `C`), the table as a `seq`, upsert, soft delete, the identifier finder shared by all families; the `Repository` class |
| `precedence.dfy` | a first-match rule list, against which every search dispatch is proved |
| `exceptions.dfy`, `service.dfy` | the failures; the generic `ResourceService` class with Create, Update, Get, Delete and Search |
| `<family>_mapper.dfy`, `<family>_repository.dfy`, `<family>_service.dfy` | one trio per family |
| `appointment_resource.dfy`, `iso_date_time.dfy` | the Appointment `date` parameter and the strict ISO date-time parser it relies on |
| `exception_handler.dfy` | `GlobalExceptionHandler.toResponse` |
| `portal.dfy` | `patientReference`, `patientName`, `getUpcomingAppointmentCount`, `getPendingClaimsCount` |

### What is modelled how

**Mappers.** The Appointment, Practitioner and MedicationRequest mappers fill
a fresh entity step by step, with loops that either overwrite or break. Each
is an imperative `ToEntity` method built from small copy methods. Each method
is proved equal to a specification function `Project`, and the properties of
the projection are lemmas about `Project`. The Claim, Coverage and Patient
mappers are straight-line assignments, modelled as one record constructor.

**Repositories.** A finder is a filter, with or without a sort, over the table.
Its contract names the exact multiset of rows returned, and the sort order
where the query has one.

**Services.** The services share one class, `Service.ResourceService`, which
owns a `Repository`. Each family instantiates it with its own projection and
its own search function (`NewService`). Each family's search dispatch is proved
equal to a first-match rule table (`SearchPathFollowsTable`).

**External inputs.** The FHIR codec, the validator, the id generator and the
clock come from outside. They are parameters, and the service assumes that
encoding followed by parsing gives the document back (`Service.RoundTrips`).

### Where the code and the written design disagree

The model follows the code.

- get and delete find soft-deleted rows, and get returns them. The design says
  a read sees active rows only.
- Update takes `active` from the mapper, so it sets `active` rather than
  keeping it. Appointment, MedicationRequest, Claim and Coverage are therefore
  reactivated by an update (`UpdateReactivates`). Patient and Practitioner
  take the incoming document's flag (`UpdateStoresDocumentActive`). The design
  says update leaves `active` unchanged.
- Patient and Practitioner rows are inactive when the document has no
  `active` element, because HAPI's `getActive()` is then false. The design
  says the default is active.
- An Appointment date token that does not parse does not drop the filter. It
  is replaced by the current time (`UnparseableTokenUsesNow`). The design says
  the filter is dropped.
- An `eq` prefix is not stripped, so such a token never parses and selects the
  current day (`EqPrefixSelectsToday`).
- The identifier finder filters on `active` in Appointment, Practitioner and
  Claim, but not in Patient or Coverage. The model keeps each family's
  behaviour.

## Model

| member | source | states |
|---|---|---|
| Store.FindByFhirId | redhat-healthcare-appointment/src/main/java/com/redhat/healthcare/appointment/domain/repository/AppointmentRepository.java:14-16 | the lookup by id finds a row exactly when some row has that id, whatever its active flag |
| Store.FindByFhirIdAt | redhat-healthcare-appointment/src/main/java/com/redhat/healthcare/appointment/domain/repository/AppointmentRepository.java:14-16 | with unique ids, the row at a position holding the id is the one found |
| Store.Upsert | redhat-healthcare-appointment/src/main/java/com/redhat/healthcare/appointment/service/AppointmentService.java:52 | `persist` keeps every row with another id and leaves the new row in the table |
| Store.UpsertFind | redhat-healthcare-appointment/src/main/java/com/redhat/healthcare/appointment/service/AppointmentService.java:52 | after persisting, looking up the written id gives the written row and every other id gives what it gave before |
| Store.UpsertStored | redhat-healthcare-appointment/src/main/java/com/redhat/healthcare/appointment/service/AppointmentService.java:52 | persisting a row with an id keeps the ids in the table unique |
| Store.MarkDeleted | redhat-healthcare-appointment/src/main/java/com/redhat/healthcare/appointment/domain/repository/AppointmentRepository.java:63-66 | `softDelete` clears `active` and sets `lastUpdated` on the row with the id, changes no other field and no other row, and changes nothing for an unknown id |
| Store.MarkDeletedStored | redhat-healthcare-appointment/src/main/java/com/redhat/healthcare/appointment/domain/repository/AppointmentRepository.java:63-66 | a soft delete keeps the ids unique |
| Store.IdentifierRows | redhat-healthcare-appointment/src/main/java/com/redhat/healthcare/appointment/domain/repository/AppointmentRepository.java:18-25 | `findByIdentifier`: no value gives no rows; otherwise exactly the rows matching the value and, when given, the system, each as often as stored; the active filter is a parameter because the families differ |
| Store.Repository.Persist | redhat-healthcare-appointment/src/main/java/com/redhat/healthcare/appointment/service/AppointmentService.java:52 | the table becomes the upsert of the row; the row is found by its id and every other lookup is unchanged |
| Store.Repository.SoftDelete | redhat-healthcare-appointment/src/main/java/com/redhat/healthcare/appointment/domain/repository/AppointmentRepository.java:63-66 | the table becomes `MarkDeleted` of the old table |
| Service.ValidationFailure | redhat-healthcare-patients/src/main/java/com/redhat/healthcare/members/service/FhirValidationService.java:27-34 | a failed validation raises the validation failure whose message starts with "FHIR validation failed: " and, for one message, ends with it |
| Service.AssignId | redhat-healthcare-appointment/src/main/java/com/redhat/healthcare/appointment/service/AppointmentService.java:37-39 | create keeps a non-empty id and otherwise uses the generated one; meta and content are untouched |
| Service.StampMeta | redhat-healthcare-appointment/src/main/java/com/redhat/healthcare/appointment/service/AppointmentService.java:41-45 | meta is created when missing, its versionId reads back as the version number and lastUpdated is the clock; id, content and profiles are untouched |
| Service.ToFhir | redhat-healthcare-appointment/src/main/java/com/redhat/healthcare/appointment/mapper/AppointmentMapper.java:143-145 | `toFhir` succeeds exactly when the codec parses the stored payload, and then gives the parsed document |
| Service.ToFhirReadsPayloadOnly | redhat-healthcare-appointment/src/main/java/com/redhat/healthcare/appointment/mapper/AppointmentMapper.java:143-145 | two rows with the same payload read back as the same document, whatever their columns |
| Service.ToFhirAll | redhat-healthcare-appointment/src/main/java/com/redhat/healthcare/appointment/service/AppointmentService.java:121-123 | a search result converts every row in order, with the same length, and fails if any payload fails to parse |
| Service.CreatedRowAgrees | redhat-healthcare-appointment/src/main/java/com/redhat/healthcare/appointment/service/AppointmentService.java:34-55 | the created row carries the document id and version 1 in both the row and meta, and reads back as the returned document |
| Service.UpdatedRowAgrees | redhat-healthcare-appointment/src/main/java/com/redhat/healthcare/appointment/service/AppointmentService.java:58-81 | the updated row has the path id, version existing+1 in both row and meta, the existing createdAt, and reads back as the returned document |
| Service.DeletedRowStaysFindable | redhat-healthcare-appointment/src/main/java/com/redhat/healthcare/appointment/service/AppointmentService.java:83-96 | after a soft delete the row is still found by id, inactive, and equal to the old row apart from active and lastUpdated |
| Service.DeleteTwice | redhat-healthcare-appointment/src/main/java/com/redhat/healthcare/appointment/service/AppointmentService.java:91-96 | deleting twice leaves the table as one delete at the later time |
| Service.ResourceService.Create | redhat-healthcare-appointment/src/main/java/com/redhat/healthcare/appointment/service/AppointmentService.java:34-55 | an invalid document fails with the validation failure and writes nothing; a valid one is given an id if needed, stamped version 1, stored as the created row and returned |
| Service.ResourceService.Update | redhat-healthcare-appointment/src/main/java/com/redhat/healthcare/appointment/service/AppointmentService.java:58-81 | an unknown id fails with NotFound before validation; an invalid document fails next; otherwise the row is replaced with version existing+1, the existing createdAt and the mapper's active flag |
| Service.ResourceService.Get | redhat-healthcare-appointment/src/main/java/com/redhat/healthcare/appointment/service/AppointmentService.java:83-88 | NotFound only when no row has the id; otherwise the re-parsed payload, soft-deleted or not |
| Service.ResourceService.Delete | redhat-healthcare-appointment/src/main/java/com/redhat/healthcare/appointment/service/AppointmentService.java:91-96 | NotFound only when no row has the id; otherwise the row is soft-deleted |
| Service.ResourceService.Search | redhat-healthcare-appointment/src/main/java/com/redhat/healthcare/appointment/service/AppointmentService.java:98-124 | the result is the converted rows of the family's search over the current table |
| Precedence.FirstMatch | redhat-healthcare-appointment/src/main/java/com/redhat/healthcare/appointment/service/AppointmentService.java:101-122 | the query chosen is that of the first rule that applies, or the fallback when none does |
| AppointmentMapper.Project | redhat-healthcare-appointment/src/main/java/com/redhat/healthcare/appointment/mapper/AppointmentMapper.java:19-141 | the row has the document id, the encoded document, active true, and the clock as lastUpdated |
| AppointmentMapper.ToEntity | redhat-healthcare-appointment/src/main/java/com/redhat/healthcare/appointment/mapper/AppointmentMapper.java:19-141 | the field-by-field copy builds exactly `Project` |
| AppointmentMapper.CopyElements | redhat-healthcare-appointment/src/main/java/com/redhat/healthcare/appointment/mapper/AppointmentMapper.java:26-137 | the straight-line copy of the non-participant columns equals `ElementColumns` |
| AppointmentMapper.ElementColumns | redhat-healthcare-appointment/src/main/java/com/redhat/healthcare/appointment/mapper/AppointmentMapper.java:26-137 | the element copy leaves every participant column null |
| AppointmentMapper.CopyFirstCoding | redhat-healthcare-appointment/src/main/java/com/redhat/healthcare/appointment/mapper/AppointmentMapper.java:39-86 | each concept list contributes the code and display of its first concept's first coding |
| AppointmentMapper.ToLocalDateTime | redhat-healthcare-appointment/src/main/java/com/redhat/healthcare/appointment/mapper/AppointmentMapper.java:147-152 | a missing date stays null |
| AppointmentMapper.LastInRole | redhat-healthcare-appointment/src/main/java/com/redhat/healthcare/appointment/mapper/AppointmentMapper.java:112-131 | a role is unset exactly when no participant's actor reference has its prefix |
| AppointmentMapper.LastInRoleSnoc | redhat-healthcare-appointment/src/main/java/com/redhat/healthcare/appointment/mapper/AppointmentMapper.java:113-128 | one more participant overwrites its role and leaves the other roles as they were |
| AppointmentMapper.RouteParticipants | redhat-healthcare-appointment/src/main/java/com/redhat/healthcare/appointment/mapper/AppointmentMapper.java:112-131 | the participant loop fills each role from the last participant with that prefix |
| AppointmentMapper.PrefixesExclusive | redhat-healthcare-appointment/src/main/java/com/redhat/healthcare/appointment/mapper/AppointmentMapper.java:116-127 | no actor reference carries two of the role prefixes, so the branches never overlap |
| AppointmentMapper.PatientColumnsFromLastPatient | redhat-healthcare-appointment/src/main/java/com/redhat/healthcare/appointment/mapper/AppointmentMapper.java:113-128 | the patient columns are the reference and display of the last patient participant |
| AppointmentMapper.OtherParticipantsIgnored | redhat-healthcare-appointment/src/main/java/com/redhat/healthcare/appointment/mapper/AppointmentMapper.java:112-131 | a participant with no actor reference or another prefix changes no column |
| AppointmentMapper.LaterElementsIgnored | redhat-healthcare-appointment/src/main/java/com/redhat/healthcare/appointment/mapper/AppointmentMapper.java:27-86 | identifiers, service categories, service types, specialties and reasons after the first change no column |
| AppointmentRepository.ActiveByStart | redhat-healthcare-appointment/src/main/java/com/redhat/healthcare/appointment/domain/repository/AppointmentRepository.java:27-61 | the active rows meeting the condition, each as often as stored, ordered by startTime |
| AppointmentRepository.FindByIdentifier | redhat-healthcare-appointment/src/main/java/com/redhat/healthcare/appointment/domain/repository/AppointmentRepository.java:18-25 | the active rows matching value and, when given, system; nothing without a value |
| AppointmentRepository.FindByPatient | redhat-healthcare-appointment/src/main/java/com/redhat/healthcare/appointment/domain/repository/AppointmentRepository.java:27-29 | exactly the active rows of that patient, ordered by startTime |
| AppointmentRepository.FindByPractitioner | redhat-healthcare-appointment/src/main/java/com/redhat/healthcare/appointment/domain/repository/AppointmentRepository.java:31-33 | exactly the active rows of that practitioner, ordered by startTime |
| AppointmentRepository.FindByStatus | redhat-healthcare-appointment/src/main/java/com/redhat/healthcare/appointment/domain/repository/AppointmentRepository.java:35-37 | exactly the active rows with that status, ordered by startTime |
| AppointmentRepository.FindByDateRange | redhat-healthcare-appointment/src/main/java/com/redhat/healthcare/appointment/domain/repository/AppointmentRepository.java:39-48 | inclusive bounds, one-sided when one is null, empty when both are |
| AppointmentRepository.FindByPatientAndStatus | redhat-healthcare-appointment/src/main/java/com/redhat/healthcare/appointment/domain/repository/AppointmentRepository.java:50-53 | exactly the active rows with both the patient and the status, ordered by startTime |
| AppointmentRepository.FindBySpecialty | redhat-healthcare-appointment/src/main/java/com/redhat/healthcare/appointment/domain/repository/AppointmentRepository.java:55-57 | exactly the active rows with that specialty code, ordered by startTime |
| AppointmentRepository.FindAllActive | redhat-healthcare-appointment/src/main/java/com/redhat/healthcare/appointment/domain/repository/AppointmentRepository.java:59-61 | every active row and no inactive one, ordered by startTime |
| AppointmentRepository.SoftDeletedLeavesAllActive | redhat-healthcare-appointment/src/main/java/com/redhat/healthcare/appointment/domain/repository/AppointmentRepository.java:59-66 | after a soft delete the row leaves the active listing and every other active row stays |
| AppointmentService.SearchPathFollowsTable | redhat-healthcare-appointment/src/main/java/com/redhat/healthcare/appointment/service/AppointmentService.java:101-122 | the dispatch is first-match over identifier, patient with status, patient, practitioner, status, date range, specialty |
| AppointmentService.SearchOnlyActive | redhat-healthcare-appointment/src/main/java/com/redhat/healthcare/appointment/service/AppointmentService.java:101-122 | every search result is an active stored row |
| AppointmentService.UpdateReactivates | redhat-healthcare-appointment/src/main/java/com/redhat/healthcare/appointment/service/AppointmentService.java:73-78 | updating a soft-deleted appointment stores it active again |
| AppointmentService.NewService | redhat-healthcare-appointment/src/main/java/com/redhat/healthcare/appointment/service/AppointmentService.java:34-124 | the Appointment service: empty table, the Appointment projection and the Appointment search |
| AppointmentResource.ParseDateTime | redhat-healthcare-appointment/src/main/java/com/redhat/healthcare/appointment/resource/AppointmentResource.java:136-147 | a token without T is read at midnight, and a token that does not parse gives the clock |
| AppointmentResource.StartOfDay | redhat-healthcare-appointment/src/main/java/com/redhat/healthcare/appointment/resource/AppointmentResource.java:125-129 | the first second of the day |
| AppointmentResource.EndOfDay | redhat-healthcare-appointment/src/main/java/com/redhat/healthcare/appointment/resource/AppointmentResource.java:125-129 | the last second of the day |
| AppointmentResource.PrefixesDistinct | redhat-healthcare-appointment/src/main/java/com/redhat/healthcare/appointment/resource/AppointmentResource.java:113-124 | at most one of the four comparison prefixes applies |
| AppointmentResource.ParseDateParameter | redhat-healthcare-appointment/src/main/java/com/redhat/healthcare/appointment/resource/AppointmentResource.java:110-134 | ge sets the start, le the end, gt the start one day later, lt the end one day earlier, and anything else the whole day of the token |
| AppointmentResource.SearchCriteria | redhat-healthcare-appointment/src/main/java/com/redhat/healthcare/appointment/resource/AppointmentResource.java:83-93 | the string criteria are copied, and the bounds are set only for a non-empty date |
| AppointmentResource.DateTimeTokenParsed | redhat-healthcare-appointment/src/main/java/com/redhat/healthcare/appointment/resource/AppointmentResource.java:136-141 | a well-formed date-time token parses to its own instant |
| AppointmentResource.BareDateIsMidnight | redhat-healthcare-appointment/src/main/java/com/redhat/healthcare/appointment/resource/AppointmentResource.java:142-143 | a bare date parses to midnight of that date |
| AppointmentResource.BareDateSelectsItsDay | redhat-healthcare-appointment/src/main/java/com/redhat/healthcare/appointment/resource/AppointmentResource.java:125-129 | a bare date selects exactly the instants of its day |
| AppointmentResource.UnparseableTokenUsesNow | redhat-healthcare-appointment/src/main/java/com/redhat/healthcare/appointment/resource/AppointmentResource.java:113-124 | for every ge, le, gt or lt token whose remainder does not parse, the filter is kept: the bound is the clock, shifted by a day for gt and lt |
| AppointmentResource.UnparseableDayUsesToday | redhat-healthcare-appointment/src/main/java/com/redhat/healthcare/appointment/resource/AppointmentResource.java:125-146 | every unprefixed token that does not parse selects the whole current day |
| AppointmentResource.MalformedGeExample | redhat-healthcare-appointment/src/main/java/com/redhat/healthcare/appointment/resource/AppointmentResource.java:113-115 | the token "ge-soon" gives a lower bound at the clock and no upper bound |
| AppointmentResource.EqPrefixSelectsToday | redhat-healthcare-appointment/src/main/java/com/redhat/healthcare/appointment/resource/AppointmentResource.java:125-146 | every eq-prefixed token, whatever follows the prefix, fails to parse and selects the current day |
| AppointmentResource.LowerCaseTUsesNow | redhat-healthcare-appointment/src/main/java/com/redhat/healthcare/appointment/resource/AppointmentResource.java:139-146 | any 16-character token without an upper-case T fails and gives the clock |
| IsoDateTime.ToTime | redhat-healthcare-appointment/src/main/java/com/redhat/healthcare/appointment/resource/AppointmentResource.java:136-143 | a valid local date-time lands on its civil day and second of day |
| IsoDateTime.Parse | redhat-healthcare-appointment/src/main/java/com/redhat/healthcare/appointment/resource/AppointmentResource.java:140-143 | only valid date-times with a T separator and an offset or nothing after the time parse |
| IsoDateTime.ParseFormat | redhat-healthcare-appointment/src/main/java/com/redhat/healthcare/appointment/resource/AppointmentResource.java:140 | formatting and then parsing gives back the date-time |
| IsoDateTime.ParseDateAtMidnight | redhat-healthcare-appointment/src/main/java/com/redhat/healthcare/appointment/resource/AppointmentResource.java:142-143 | a bare date with T00:00:00 appended parses to midnight |
| IsoDateTime.TIsNotAnOffset | redhat-healthcare-appointment/src/main/java/com/redhat/healthcare/appointment/resource/AppointmentResource.java:140 | a token whose time is followed by other text does not parse |
| PractitionerMapper.Project | redhat-healthcare-practitioner/src/main/java/com/redhat/healthcare/practitioner/mapper/PractitionerMapper.java:20-135 | the row has the document id and encoding, and is active exactly when the document says active true |
| PractitionerMapper.ToEntity | redhat-healthcare-practitioner/src/main/java/com/redhat/healthcare/practitioner/mapper/PractitionerMapper.java:20-135 | the imperative copy builds exactly `Project` |
| PractitionerMapper.NpiOf | redhat-healthcare-practitioner/src/main/java/com/redhat/healthcare/practitioner/mapper/PractitionerMapper.java:34-39 | no identifier with a system containing "us-npi" leaves npi null |
| PractitionerMapper.NpiAt | redhat-healthcare-practitioner/src/main/java/com/redhat/healthcare/practitioner/mapper/PractitionerMapper.java:34-39 | npi is the value of the first identifier whose system contains "us-npi" |
| PractitionerMapper.ScanNpi | redhat-healthcare-practitioner/src/main/java/com/redhat/healthcare/practitioner/mapper/PractitionerMapper.java:34-39 | the loop with break computes exactly `NpiOf` |
| PractitionerMapper.LaterIdentifiersIgnored | redhat-healthcare-practitioner/src/main/java/com/redhat/healthcare/practitioner/mapper/PractitionerMapper.java:34-39 | identifiers after the first NPI one do not change npi |
| PractitionerMapper.NameColumnsOf | redhat-healthcare-practitioner/src/main/java/com/redhat/healthcare/practitioner/mapper/PractitionerMapper.java:42-76 | family and first given come from the first name; with text, fullName is the text and prefix and suffix stay null; without it, fullName is the trimmed buffer of the present parts |
| PractitionerMapper.CopyName | redhat-healthcare-practitioner/src/main/java/com/redhat/healthcare/practitioner/mapper/PractitionerMapper.java:42-76 | the name copy computes exactly `NameColumnsOf` |
| PractitionerMapper.BuildFullName | redhat-healthcare-practitioner/src/main/java/com/redhat/healthcare/practitioner/mapper/PractitionerMapper.java:56-74 | the builder appends the first prefix, given, family and first suffix and trims the result |
| PractitionerMapper.FullNameJoinsPresentParts | redhat-healthcare-practitioner/src/main/java/com/redhat/healthcare/practitioner/mapper/PractitionerMapper.java:56-74 | with a family name, the buffer is the present parts joined by single spaces |
| PractitionerMapper.MissingFamilyDoubleSpace | redhat-healthcare-practitioner/src/main/java/com/redhat/healthcare/practitioner/mapper/PractitionerMapper.java:56-74 | without a family name, given and suffix are separated by two spaces |
| PractitionerMapper.LastOfSystem | redhat-healthcare-practitioner/src/main/java/com/redhat/healthcare/practitioner/mapper/PractitionerMapper.java:78-88 | a column is null exactly when no telecom entry with both system and value has that system |
| PractitionerMapper.LastOfSystemAt | redhat-healthcare-practitioner/src/main/java/com/redhat/healthcare/practitioner/mapper/PractitionerMapper.java:78-88 | phone and email are the values of the last complete entry of that system |
| PractitionerMapper.LastOfSystemSnoc | redhat-healthcare-practitioner/src/main/java/com/redhat/healthcare/practitioner/mapper/PractitionerMapper.java:78-88 | one more complete entry of a system overwrites that column only |
| PractitionerMapper.ScanTelecom | redhat-healthcare-practitioner/src/main/java/com/redhat/healthcare/practitioner/mapper/PractitionerMapper.java:78-88 | the telecom loop computes exactly the last phone and the last email |
| PractitionerMapper.IncompleteContactIgnored | redhat-healthcare-practitioner/src/main/java/com/redhat/healthcare/practitioner/mapper/PractitionerMapper.java:80 | an entry lacking system or value is skipped |
| PractitionerMapper.QualificationCoding | redhat-healthcare-practitioner/src/main/java/com/redhat/healthcare/practitioner/mapper/PractitionerMapper.java:100-109 | the specialty columns come from the first qualification's first coding |
| PractitionerMapper.CopyQualification | redhat-healthcare-practitioner/src/main/java/com/redhat/healthcare/practitioner/mapper/PractitionerMapper.java:100-109 | the qualification copy computes exactly `QualificationCoding` |
| PractitionerMapper.CopyAddress | redhat-healthcare-practitioner/src/main/java/com/redhat/healthcare/practitioner/mapper/PractitionerMapper.java:111-130 | the address columns come from the first address and its first line |
| PractitionerMapper.LaterElementsIgnored | redhat-healthcare-practitioner/src/main/java/com/redhat/healthcare/practitioner/mapper/PractitionerMapper.java:42-130 | names, qualifications and addresses after the first change no column |
| PractitionerRepository.FindByIdentifier | redhat-healthcare-practitioner/src/main/java/com/redhat/healthcare/practitioner/domain/repository/PractitionerRepository.java:18-25 | the active rows matching value and, when given, system; nothing without a value |
| PractitionerRepository.FindByNpi | redhat-healthcare-practitioner/src/main/java/com/redhat/healthcare/practitioner/domain/repository/PractitionerRepository.java:27-29 | none exactly when no active row has the npi; otherwise an active row with it |
| PractitionerRepository.FindByName | redhat-healthcare-practitioner/src/main/java/com/redhat/healthcare/practitioner/domain/repository/PractitionerRepository.java:31-34 | exactly the active rows whose family, given or full name contains the text, ignoring case |
| PractitionerRepository.FindByFamilyName | redhat-healthcare-practitioner/src/main/java/com/redhat/healthcare/practitioner/domain/repository/PractitionerRepository.java:36-39 | exactly the active rows whose family name contains the text, ignoring case |
| PractitionerRepository.FindByGivenName | redhat-healthcare-practitioner/src/main/java/com/redhat/healthcare/practitioner/domain/repository/PractitionerRepository.java:41-44 | exactly the active rows whose given name contains the text, ignoring case |
| PractitionerRepository.FindBySpecialty | redhat-healthcare-practitioner/src/main/java/com/redhat/healthcare/practitioner/domain/repository/PractitionerRepository.java:46-48 | exactly the active rows with that specialty code |
| PractitionerRepository.FindByEmail | redhat-healthcare-practitioner/src/main/java/com/redhat/healthcare/practitioner/domain/repository/PractitionerRepository.java:50-52 | none exactly when no active row has the email; otherwise an active row with it |
| PractitionerRepository.FindAllActive | redhat-healthcare-practitioner/src/main/java/com/redhat/healthcare/practitioner/domain/repository/PractitionerRepository.java:54-56 | every active row, ordered by family name and then given name |
| PractitionerRepository.NameSearchIsUnion | redhat-healthcare-practitioner/src/main/java/com/redhat/healthcare/practitioner/domain/repository/PractitionerRepository.java:31-44 | the name search is the union of the family and given searches and the full-name match |
| PractitionerService.SearchPathFollowsTable | redhat-healthcare-practitioner/src/main/java/com/redhat/healthcare/practitioner/service/PractitionerService.java:101-124 | the dispatch is first-match over identifier, npi, name, family, given, email, specialty |
| PractitionerService.SearchOnlyActive | redhat-healthcare-practitioner/src/main/java/com/redhat/healthcare/practitioner/service/PractitionerService.java:101-124 | every search result is an active stored row |
| PractitionerService.AsList | redhat-healthcare-practitioner/src/main/java/com/redhat/healthcare/practitioner/service/PractitionerService.java:106-119 | an optional row becomes a list of at most one |
| PractitionerService.SingleResultPaths | redhat-healthcare-practitioner/src/main/java/com/redhat/healthcare/practitioner/service/PractitionerService.java:106-119 | the npi and email paths return at most one row |
| PractitionerService.CreateStoresDocumentActive | redhat-healthcare-practitioner/src/main/java/com/redhat/healthcare/practitioner/service/PractitionerService.java:37-50 | after create the stored active flag is the document's own |
| PractitionerService.UpdateStoresDocumentActive | redhat-healthcare-practitioner/src/main/java/com/redhat/healthcare/practitioner/service/PractitionerService.java:59-78 | after update the stored active flag is the incoming document's |
| PractitionerService.NewService | redhat-healthcare-practitioner/src/main/java/com/redhat/healthcare/practitioner/service/PractitionerService.java:34-129 | the Practitioner service: empty table, the Practitioner projection and search |
| MedicationRequestMapper.Project | redhat-healthcare-medication/src/main/java/com/redhat/healthcare/medication/mapper/MedicationRequestMapper.java:19-115 | the row has the document id and encoding and active true |
| MedicationRequestMapper.ToEntity | redhat-healthcare-medication/src/main/java/com/redhat/healthcare/medication/mapper/MedicationRequestMapper.java:19-115 | the sequential copy builds exactly `Project` |
| MedicationRequestMapper.MedicationOf | redhat-healthcare-medication/src/main/java/com/redhat/healthcare/medication/mapper/MedicationRequestMapper.java:39-50 | display prefers the concept text and falls back to the first coding's display; code and system come from the first coding either way |
| MedicationRequestMapper.CopyMedication | redhat-healthcare-medication/src/main/java/com/redhat/healthcare/medication/mapper/MedicationRequestMapper.java:39-50 | the copy that overwrites the display only while unset computes exactly `MedicationOf` |
| MedicationRequestMapper.QuantityOf | redhat-healthcare-medication/src/main/java/com/redhat/healthcare/medication/mapper/MedicationRequestMapper.java:85-109 | a missing quantity leaves both parts null, a present one is copied part by part |
| MedicationRequestMapper.CopyDispenseRequest | redhat-healthcare-medication/src/main/java/com/redhat/healthcare/medication/mapper/MedicationRequestMapper.java:79-110 | quantity, refills and supply duration are copied only when present |
| MedicationRequestMapper.QuantityPartsIndependent | redhat-healthcare-medication/src/main/java/com/redhat/healthcare/medication/mapper/MedicationRequestMapper.java:85-109 | changing the unit does not change the recorded value |
| MedicationRequestMapper.LaterDosagesIgnored | redhat-healthcare-medication/src/main/java/com/redhat/healthcare/medication/mapper/MedicationRequestMapper.java:72-77 | dosageText is the first instruction's text, whatever follows |
| MedicationRequestRepository.ActiveByAuthored | redhat-healthcare-medication/src/main/java/com/redhat/healthcare/medication/domain/repository/MedicationRequestRepository.java:18-41 | the active rows meeting the condition, newest authoredOn first |
| MedicationRequestRepository.FindByPatient | redhat-healthcare-medication/src/main/java/com/redhat/healthcare/medication/domain/repository/MedicationRequestRepository.java:18-20 | exactly the active rows of that patient, newest first |
| MedicationRequestRepository.FindByRequester | redhat-healthcare-medication/src/main/java/com/redhat/healthcare/medication/domain/repository/MedicationRequestRepository.java:22-24 | exactly the active rows of that requester, newest first |
| MedicationRequestRepository.FindByStatus | redhat-healthcare-medication/src/main/java/com/redhat/healthcare/medication/domain/repository/MedicationRequestRepository.java:26-28 | exactly the active rows with that status, newest first |
| MedicationRequestRepository.FindByMedication | redhat-healthcare-medication/src/main/java/com/redhat/healthcare/medication/domain/repository/MedicationRequestRepository.java:30-32 | exactly the active rows with that medication code, newest first |
| MedicationRequestRepository.FindByPatientAndStatus | redhat-healthcare-medication/src/main/java/com/redhat/healthcare/medication/domain/repository/MedicationRequestRepository.java:34-37 | exactly the active rows with both, newest first |
| MedicationRequestRepository.FindAllActive | redhat-healthcare-medication/src/main/java/com/redhat/healthcare/medication/domain/repository/MedicationRequestRepository.java:39-41 | every active row, newest first |
| MedicationRequestRepository.PatientAndStatusIsIntersection | redhat-healthcare-medication/src/main/java/com/redhat/healthcare/medication/domain/repository/MedicationRequestRepository.java:34-37 | the compound finder is the intersection of the patient and status finders |
| MedicationRequestService.SearchPathFollowsTable | redhat-healthcare-medication/src/main/java/com/redhat/healthcare/medication/service/MedicationRequestService.java:101-117 | the dispatch is first-match over patient+status, patient, requester, status, medication |
| MedicationRequestService.StatusPathCondition | redhat-healthcare-medication/src/main/java/com/redhat/healthcare/medication/service/MedicationRequestService.java:111-112 | the status path is chosen exactly when patient and requester are empty and status is not; patient with status narrows the patient result |
| MedicationRequestService.SearchOnlyActive | redhat-healthcare-medication/src/main/java/com/redhat/healthcare/medication/service/MedicationRequestService.java:101-117 | every search result is an active stored row |
| MedicationRequestService.UpdateReactivates | redhat-healthcare-medication/src/main/java/com/redhat/healthcare/medication/service/MedicationRequestService.java:73-78 | updating a soft-deleted request stores it active again |
| MedicationRequestService.NewService | redhat-healthcare-medication/src/main/java/com/redhat/healthcare/medication/service/MedicationRequestService.java:34-122 | the MedicationRequest service: empty table, projection and search |
| ClaimMapper.Project | redhat-healthcare-claims/src/main/java/com/redhat/healthcare/claims/mapper/ClaimMapper.java:21-92 | the row has the document id and encoding and active true |
| ClaimMapper.LaterElementsIgnored | redhat-healthcare-claims/src/main/java/com/redhat/healthcare/claims/mapper/ClaimMapper.java:28-67 | identifiers and codings after the first change no column |
| ClaimMapper.TotalCopiedAsPair | redhat-healthcare-claims/src/main/java/com/redhat/healthcare/claims/mapper/ClaimMapper.java:69-73 | a present total copies both value and currency, even a null one |
| ClaimMapper.BillableBoundsIndependent | redhat-healthcare-claims/src/main/java/com/redhat/healthcare/claims/mapper/ClaimMapper.java:79-87 | the billable period's start and end are set independently |
| ClaimRepository.FindByIdentifier | redhat-healthcare-claims/src/main/java/com/redhat/healthcare/claims/domain/repository/ClaimRepository.java:18-25 | the active rows matching value and, when given, system; nothing without a value |
| ClaimRepository.ActiveWhere | redhat-healthcare-claims/src/main/java/com/redhat/healthcare/claims/domain/repository/ClaimRepository.java:27-45 | exactly the active rows meeting the condition |
| ClaimRepository.FindByPatient | redhat-healthcare-claims/src/main/java/com/redhat/healthcare/claims/domain/repository/ClaimRepository.java:27-29 | exactly the active rows of that patient |
| ClaimRepository.FindByProvider | redhat-healthcare-claims/src/main/java/com/redhat/healthcare/claims/domain/repository/ClaimRepository.java:31-33 | exactly the active rows of that provider |
| ClaimRepository.FindByInsurer | redhat-healthcare-claims/src/main/java/com/redhat/healthcare/claims/domain/repository/ClaimRepository.java:35-37 | exactly the active rows of that insurer |
| ClaimRepository.FindByStatus | redhat-healthcare-claims/src/main/java/com/redhat/healthcare/claims/domain/repository/ClaimRepository.java:39-41 | exactly the active rows with that status |
| ClaimRepository.FindByUse | redhat-healthcare-claims/src/main/java/com/redhat/healthcare/claims/domain/repository/ClaimRepository.java:43-45 | exactly the active rows with that use |
| ClaimRepository.FindAllActive | redhat-healthcare-claims/src/main/java/com/redhat/healthcare/claims/domain/repository/ClaimRepository.java:52-54 | every active row, newest created date first |
| ClaimRepository.AllActiveNewestFirst | redhat-healthcare-claims/src/main/java/com/redhat/healthcare/claims/domain/repository/ClaimRepository.java:52-54 | of two dated rows in the listing, the earlier position has the later date |
| ClaimService.SearchPathFollowsTable | redhat-healthcare-claims/src/main/java/com/redhat/healthcare/claims/service/ClaimService.java:101-118 | the dispatch is first-match over identifier, patient, provider, insurer, status, use |
| ClaimService.SearchOnlyActive | redhat-healthcare-claims/src/main/java/com/redhat/healthcare/claims/service/ClaimService.java:101-118 | every search result is an active stored row |
| ClaimService.UpdateReactivates | redhat-healthcare-claims/src/main/java/com/redhat/healthcare/claims/service/ClaimService.java:73-78 | updating a soft-deleted claim stores it active again |
| ClaimService.NewService | redhat-healthcare-claims/src/main/java/com/redhat/healthcare/claims/service/ClaimService.java:34-123 | the Claim service: empty table, projection and search |
| CoverageMapper.Project | redhat-healthcare-patients-coverage/src/main/java/com/redhat/healthcare/coverage/mapper/CoverageMapper.java:24-76 | the row has the document id and encoding and active true |
| CoverageMapper.LaterElementsIgnored | redhat-healthcare-patients-coverage/src/main/java/com/redhat/healthcare/coverage/mapper/CoverageMapper.java:31-61 | identifiers, payors and type codings after the first change no column |
| CoverageMapper.PartyDisplaysIgnored | redhat-healthcare-patients-coverage/src/main/java/com/redhat/healthcare/coverage/mapper/CoverageMapper.java:41-47 | the displays of beneficiary and subscriber reach no column |
| CoverageMapper.PeriodBoundsIndependent | redhat-healthcare-patients-coverage/src/main/java/com/redhat/healthcare/coverage/mapper/CoverageMapper.java:63-71 | the period's start and end are set independently |
| CoverageRepository.FindByIdentifier | redhat-healthcare-patients-coverage/src/main/java/com/redhat/healthcare/coverage/domain/repository/CoverageRepository.java:18-25 | the rows matching value and, when given, system, active or not; nothing without a value |
| CoverageRepository.ActiveWhere | redhat-healthcare-patients-coverage/src/main/java/com/redhat/healthcare/coverage/domain/repository/CoverageRepository.java:27-41 | exactly the active rows meeting the condition |
| CoverageRepository.FindByBeneficiary | redhat-healthcare-patients-coverage/src/main/java/com/redhat/healthcare/coverage/domain/repository/CoverageRepository.java:27-29 | exactly the active rows of that beneficiary |
| CoverageRepository.FindBySubscriber | redhat-healthcare-patients-coverage/src/main/java/com/redhat/healthcare/coverage/domain/repository/CoverageRepository.java:31-33 | exactly the active rows of that subscriber |
| CoverageRepository.FindByPayor | redhat-healthcare-patients-coverage/src/main/java/com/redhat/healthcare/coverage/domain/repository/CoverageRepository.java:35-37 | exactly the active rows of that payor |
| CoverageRepository.FindByStatus | redhat-healthcare-patients-coverage/src/main/java/com/redhat/healthcare/coverage/domain/repository/CoverageRepository.java:39-41 | exactly the active rows with that status |
| CoverageRepository.FindAllActive | redhat-healthcare-patients-coverage/src/main/java/com/redhat/healthcare/coverage/domain/repository/CoverageRepository.java:48-50 | exactly the active rows |
| CoverageRepository.DeletedFoundByIdentifier | redhat-healthcare-patients-coverage/src/main/java/com/redhat/healthcare/coverage/domain/repository/CoverageRepository.java:18-25 | a soft-deleted coverage is still returned by the identifier finder |
| CoverageService.FromParameters | redhat-healthcare-patients-coverage/src/main/java/com/redhat/healthcare/coverage/resource/CoverageResource.java:81-87 | patient stands in for a missing beneficiary, and no identifier system is set |
| CoverageService.SearchPathFollowsTable | redhat-healthcare-patients-coverage/src/main/java/com/redhat/healthcare/coverage/service/CoverageService.java:98-116 | the dispatch is first-match over identifier, beneficiary, subscriber, payor, status |
| CoverageService.NonIdentifierSearchOnlyActive | redhat-healthcare-patients-coverage/src/main/java/com/redhat/healthcare/coverage/service/CoverageService.java:106-116 | every path but the identifier path returns only active stored rows |
| CoverageService.IdentifierSearchReturnsDeleted | redhat-healthcare-patients-coverage/src/main/java/com/redhat/healthcare/coverage/service/CoverageService.java:101-105 | an identifier search returns a soft-deleted coverage with that identifier |
| CoverageService.EmptyBeneficiaryHidesPatient | redhat-healthcare-patients-coverage/src/main/java/com/redhat/healthcare/coverage/resource/CoverageResource.java:84 | an empty beneficiary parameter keeps patient from being used |
| CoverageService.PatientStandsInForBeneficiary | redhat-healthcare-patients-coverage/src/main/java/com/redhat/healthcare/coverage/resource/CoverageResource.java:84 | without a beneficiary parameter, a non-empty patient selects the beneficiary path |
| CoverageService.UpdateReactivates | redhat-healthcare-patients-coverage/src/main/java/com/redhat/healthcare/coverage/service/CoverageService.java:73-78 | updating a soft-deleted coverage stores it active again |
| CoverageService.NewService | redhat-healthcare-patients-coverage/src/main/java/com/redhat/healthcare/coverage/service/CoverageService.java:34-121 | the Coverage service: empty table, projection and search |
| PatientMapper.Columns | redhat-healthcare-patients/src/main/java/com/redhat/healthcare/members/mapper/PatientMapper.java:29-49 | family is the first name's family as-is, given its first given only, and birth date and gender are set only when present |
| PatientMapper.Project | redhat-healthcare-patients/src/main/java/com/redhat/healthcare/members/mapper/PatientMapper.java:22-54 | the row has the document id and encoding and is active exactly when the document says active true |
| PatientMapper.LaterElementsIgnored | redhat-healthcare-patients/src/main/java/com/redhat/healthcare/members/mapper/PatientMapper.java:29-41 | later identifiers, names and given names, and the name's other parts, change no column |
| PatientRepository.FindByIdentifier | redhat-healthcare-patients/src/main/java/com/redhat/healthcare/members/domain/repository/PatientRepository.java:19-26 | the rows matching value and, when given, system, active or not; nothing without a value |
| PatientRepository.SearchByName | redhat-healthcare-patients/src/main/java/com/redhat/healthcare/members/domain/repository/PatientRepository.java:28-44 | exactly the active rows containing each non-empty name, ignoring case |
| PatientRepository.SearchByNameCases | redhat-healthcare-patients/src/main/java/com/redhat/healthcare/members/domain/repository/PatientRepository.java:28-44 | both names, one name or neither give the three shapes of the query, the last being every active row |
| PatientRepository.BothNamesNarrow | redhat-healthcare-patients/src/main/java/com/redhat/healthcare/members/domain/repository/PatientRepository.java:32-36 | naming both narrows each single-name search |
| PatientRepository.SearchByBirthDate | redhat-healthcare-patients/src/main/java/com/redhat/healthcare/members/domain/repository/PatientRepository.java:46-48 | exactly the active rows with that birth date |
| PatientRepository.FindAllActive | redhat-healthcare-patients/src/main/java/com/redhat/healthcare/members/domain/repository/PatientRepository.java:55-57 | exactly the active rows |
| PatientService.SearchPathFollowsTable | redhat-healthcare-patients/src/main/java/com/redhat/healthcare/members/service/PatientService.java:98-116 | the dispatch is first-match over identifier, name, birth date |
| PatientService.NonIdentifierSearchOnlyActive | redhat-healthcare-patients/src/main/java/com/redhat/healthcare/members/service/PatientService.java:106-116 | every path but the identifier path returns only active stored rows |
| PatientService.IdentifierSearchReturnsInactive | redhat-healthcare-patients/src/main/java/com/redhat/healthcare/members/service/PatientService.java:101-105 | an identifier search returns any stored row with that identifier, inactive ones included |
| PatientService.NameOverridesBirthDate | redhat-healthcare-patients/src/main/java/com/redhat/healthcare/members/service/PatientService.java:106-113 | with a name given, the birth date is ignored |
| PatientService.CreateStoresDocumentActive | redhat-healthcare-patients/src/main/java/com/redhat/healthcare/members/service/PatientService.java:47 | after create the stored active flag is the document's own |
| PatientService.UpdateStoresDocumentActive | redhat-healthcare-patients/src/main/java/com/redhat/healthcare/members/service/PatientService.java:73-78 | after update the stored active flag is the incoming document's |
| PatientService.NewService | redhat-healthcare-patients/src/main/java/com/redhat/healthcare/members/service/PatientService.java:34-121 | the Patient service: empty table, projection and search |
| GlobalExceptionHandler.Classify | redhat-healthcare-patients/src/main/java/com/redhat/healthcare/members/exception/GlobalExceptionHandler.java:20-26 | not found is 404 NOTFOUND, validation is 400 INVALID, anything else 500 EXCEPTION, and each pair belongs to one kind only |
| GlobalExceptionHandler.Diagnostics | redhat-healthcare-patients/src/main/java/com/redhat/healthcare/members/exception/GlobalExceptionHandler.java:33 | `setDiagnostics` leaves no value for a null or empty message and keeps any other message |
| GlobalExceptionHandler.ToResponse | redhat-healthcare-patients/src/main/java/com/redhat/healthcare/members/exception/GlobalExceptionHandler.java:17-60 | exactly one issue, of severity ERROR, whose diagnostics is the exception message (none when it is null or empty), encoded as the entity |
| GlobalExceptionHandler.FailureOf | redhat-healthcare-patients/src/main/java/com/redhat/healthcare/members/exception/GlobalExceptionHandler.java:29-60 | the failure read back from a response carries its single issue's diagnostics |
| GlobalExceptionHandler.ResponseIdentifiesFailure | redhat-healthcare-patients/src/main/java/com/redhat/healthcare/members/exception/GlobalExceptionHandler.java:17-60 | the response determines the failure: its kind, and its message unless that message is empty, which reads back as none |
| GlobalExceptionHandler.EmptyMessageIsNoMessage | redhat-healthcare-patients/src/main/java/com/redhat/healthcare/members/exception/GlobalExceptionHandler.java:17-60 | an exception with an empty message gets the same response as one with a null message |
| GlobalExceptionHandler.StatusDeterminesKind | redhat-healthcare-patients/src/main/java/com/redhat/healthcare/members/exception/GlobalExceptionHandler.java:20-26 | two failures with the same status are of the same kind |
| PatientPortal.PatientReference | redhat-healthcare-patient-portal/src/stores/patient.ts:26-28 | null exactly when no patient is selected, otherwise "Patient/" and the id |
| PatientPortal.Reference | redhat-healthcare-patient-portal/src/stores/patient.ts:27 | the reference is the prefix "Patient/" followed by the id |
| PatientPortal.Render | redhat-healthcare-patient-portal/src/stores/patient.ts:27 | a missing id renders as "undefined" |
| PatientPortal.OrEmpty | redhat-healthcare-patient-portal/src/stores/patient.ts:33 | a missing name part becomes the empty string |
| PatientPortal.PatientName | redhat-healthcare-patient-portal/src/stores/patient.ts:30-34 | "Unknown" with no patient or no name field, an error for an empty name list, otherwise a string with no white space at either end |
| PatientPortal.TrimKeepsBoundedText | redhat-healthcare-patient-portal/src/stores/patient.ts:33 | trim leaves a string without white space at its ends alone |
| PatientPortal.GivenThenFamily | redhat-healthcare-patient-portal/src/stores/patient.ts:32-33 | given names joined by spaces, a space, then the family name |
| PatientPortal.FamilyAlone | redhat-healthcare-patient-portal/src/stores/patient.ts:32-33 | without given names the family name stands alone |
| PatientPortal.EmptyNameIsBlank | redhat-healthcare-patient-portal/src/stores/patient.ts:32-33 | a name with neither part shows as the empty string, not "Unknown" |
| PatientPortal.UpcomingAppointmentCount | redhat-healthcare-patient-portal/src/stores/patient.ts:131-144 | at most the list length, and zero exactly when none of the patient's appointments starts at or after now |
| PatientPortal.UpcomingCountShrinksOverTime | redhat-healthcare-patient-portal/src/stores/patient.ts:140-142 | a later clock never counts more |
| PatientPortal.UpcomingCountAdds | redhat-healthcare-patient-portal/src/stores/patient.ts:131-144 | the count over two lists is the sum of the counts |
| PatientPortal.PendingClaimsCount | redhat-healthcare-patient-portal/src/stores/patient.ts:146-155 | at most the list length, and zero exactly when none of the patient's claims has status "active" |
| PatientPortal.PendingCountAdds | redhat-healthcare-patient-portal/src/stores/patient.ts:146-155 | the pending count over two lists is the sum of their counts, which with the zero case fixes it as the number of the patient's claims with status 'active' |
| PatientPortal.PendingAtMostPatientClaims | redhat-healthcare-patient-portal/src/stores/patient.ts:146-155 | the pending count never exceeds the number of the patient's claims |
| PatientPortal.CountersUseSelectedReference | redhat-healthcare-patient-portal/src/stores/patient.ts:26-28 | the counters match the reference `patientReference` gives for the same id |

## Left out

- The FHIR JSON codec, the validator, UUID generation and the clock are parameters. The model does not cover the HAPI parser, profile validation or randomness.
- Time zones: a `Date` becomes a local date or date-time in UTC, in whole seconds. The server's default zone and sub-second precision are not modelled.
- `IsoDateTime.Parse` accepts four-digit years, an optional fraction, and an offset of `Z`, `±hh:mm` or `±hh:mm:ss`. Signed or extended years and bracketed zone ids are not modelled.
- `persist` is an upsert on `fhirId`. The model says nothing about JPA identity, flush order or transactions.
- Concurrency is not modelled: every operation runs alone.
- Ordered finders: null sort keys go last in ascending and first in descending order, as PostgreSQL places them by default. The order among ties is left open.
- `PractitionerRepository.FindAllActive`: names are ordered by character code (`Seqs.LexLe`), so "Baker" sorts before "adams". The database orders by its collation, which under a typical en_US locale puts "adams" first.
- Which row `firstResultOptional` returns among several matches is left open. The model takes the first in table order.
- Unordered finders are proved to return the right multiset. The model keeps table order, but the database guarantees no order.
- LIKE: `%` and `_` inside a search text are wildcards in SQL. The model treats them as literal characters.
- Case-insensitive matching lower-cases ASCII letters only. Unicode case mapping is not modelled.
- Amounts (`BigDecimal`) are copied as opaque unscaled/scale pairs and never computed with.
- The HAPI rule that `has…()` is false for a blank primitive is modelled as an absent value.
- A list element whose primitive value is null (for example a null prefix, which the Practitioner name builder would append as "null") is not modelled.
- `PractitionerMapper.NameColumnsOf`: HAPI's `hasGiven()`/`hasPrefix()` count only non-blank elements. The model reads the first element of a non-empty list.
- `MedicationRequestMapper.MedicationOf`: a `medicationReference` is read as an absent medication. Resolving references is not part of the mappers.
- The REST resources are not modelled, apart from the Appointment date parameter (`AppointmentResource`) and the Coverage `beneficiary ?: patient` rule (`CoverageService.FromParameters`). Out of model: HTTP status codes for create and update, Bundle assembly, JSON error bodies, and `LocalDate.parse` of the Patient `birthdate` parameter, which raises on a bad date.
- The catch block of `parseDateParameter`, which drops the date filter, is not modelled. `parseDateTime` catches its own parse errors, so the catch is reached only when `plusDays` or `minusDays` overflows at the extreme years (for example "gt+999999999-12-31"). The model reads four-digit years only, so it has no such input.
- `GlobalExceptionHandler.ToResponse`: the OperationOutcome JSON encoder is a parameter. The model states the issue list, not the bytes.
- Portal actions (`loadAllPatients`, `selectPatient`, `loadPatientData`, `searchPractitioners`, `loadAllAppointmentsAndClaims`) are asynchronous HTTP calls that assign reactive state. They are not modelled. The getters take the loaded lists and the current time as parameters.
- `PatientPortal.UpcomingAppointmentCount`: a `start` the browser cannot parse (an Invalid Date) is modelled as a missing start, which the getter also skips. Milliseconds are not modelled.
- `PatientPortal.PatientName`: a `given` array holding non-strings, and a `name` field that is not an array, are not modelled.
