/** The resource service every family shares: create, update, read, soft
    delete and search over one table, with the codec, the validator, the
    family's projection and the family's search dispatch as parameters. */
module Service {
  import opened Wrappers
  import opened Text
  import opened Fhir
  import opened Store
  import opened Exceptions

  /** The codec: `parse` fails with the codec's error message. */
  datatype Codec<!B> = Codec(encode: Resource<B> -> string, parse: string -> Result<Resource<B>, string>)

  /** The codec reads back what it writes. */
  ghost predicate RoundTrips<B(!new)>(codec: Codec<B>) {
    forall d :: codec.parse(codec.encode(d)) == Success(d)
  }

  /** What the validator reports: whether the document passed, and its messages. */
  datatype ValidationResult = ValidationResult(successful: bool, messages: seq<string>)

  /** `validateOrThrow`: the exception raised for a failed validation. */
  function ValidationFailure(v: ValidationResult): (f: Failure)
    ensures f.FhirValidation? && f.message.Some?
    ensures StartsWith(f.message.value, "FHIR validation failed: ")
    ensures |v.messages| == 1 ==> f.message.value == "FHIR validation failed: " + v.messages[0]
  {
    FhirValidation(Some("FHIR validation failed: " + Join(v.messages, ", ")))
  }

  function NotFound(resourceType: string, id: string): Failure {
    ResourceNotFound(Some(resourceType + "/" + id))
  }

  /** The id is null or empty, so create generates one. */
  predicate MissingId<B>(d: Resource<B>) {
    d.id.None? || d.id.value == ""
  }

  /** Create's id rule: keep a non-empty id, otherwise take the generated one. */
  function AssignId<B>(d: Resource<B>, freshId: string): (r: Resource<B>)
    requires freshId != ""
    ensures r.meta == d.meta && r.body == d.body
    ensures r.id.Some? && r.id.value != ""
    ensures !MissingId(d) ==> r == d
    ensures MissingId(d) ==> r.id == Some(freshId)
  {
    if MissingId(d) then d.(id := Some(freshId)) else d
  }

  /** Sets meta.versionId and meta.lastUpdated, creating an empty meta when absent. */
  function StampMeta<B>(d: Resource<B>, version: nat, now: Time): (r: Resource<B>)
    ensures r.id == d.id && r.body == d.body && r.meta.Some?
    ensures r.meta.value.versionId.Some? && ParseNat(r.meta.value.versionId.value) == Some(version)
    ensures r.meta.value.lastUpdated == Some(now)
    ensures r.meta.value.profile == if d.meta.Some? then d.meta.value.profile else []
  {
    ParseNatToString(version);
    var meta := if d.meta.Some? then d.meta.value else Meta(None, None, []);
    d.(meta := Some(meta.(versionId := Some(NatToString(version)), lastUpdated := Some(now))))
  }

  /** The projection keeps the document's id and stores its encoding. */
  ghost predicate Projects<B(!new), C>(mapper: (Resource<B>, Time) -> Entity<C>, codec: Codec<B>) {
    forall d, now :: mapper(d, now).fhirId == d.id && mapper(d, now).fhirResource == codec.encode(d)
  }

  /** The row create writes for a stamped document. */
  function CreatedRow<B, C>(mapper: (Resource<B>, Time) -> Entity<C>, d: Resource<B>, now: Time): Entity<C> {
    mapper(d, now).(versionId := Some(1), createdAt := Some(now), lastUpdated := now)
  }

  /** The row update writes over `existing` for a stamped document. */
  function UpdatedRow<B, C>(mapper: (Resource<B>, Time) -> Entity<C>, existing: Entity<C>, d: Resource<B>, version: nat, now: Time): Entity<C> {
    mapper(d, now).(versionId := Some(version), lastUpdated := now, createdAt := existing.createdAt)
  }

  /** The row an update writes over a stored one is what its id finds afterwards. */
  lemma UpdatedRowFound<B, C>(mapper: (Resource<B>, Time) -> Entity<C>, rows: seq<Entity<C>>, id: string,
                              stamped: Resource<B>, version: nat, now: Time)
    requires Stored(rows) && FindByFhirId(rows, id).Some?
    requires mapper(stamped, now).fhirId == Some(id) && version >= 1
    ensures var row := UpdatedRow(mapper, FindByFhirId(rows, id).value, stamped, version, now);
      FindByFhirId(Upsert(rows, row), id) == Some(row)
  {
    FoundStorable(rows, id);
    UpsertFind(rows, UpdatedRow(mapper, FindByFhirId(rows, id).value, stamped, version, now), id);
  }

  /** `toFhir`: re-parse the stored payload; a payload the codec rejects raises. */
  function ToFhir<B, C>(codec: Codec<B>, e: Entity<C>): (r: Result<Resource<B>, Failure>)
    ensures r.Success? <==> codec.parse(e.fhirResource).Success?
    ensures r.Success? ==> Success(r.value) == codec.parse(e.fhirResource)
  {
    match codec.parse(e.fhirResource)
    case Success(d) => Success(d)
    case Failure(msg) => Failure(Unexpected(Some(msg)))
  }

  /** `entities.stream().map(mapper::toFhir)`: the first payload that fails to
      parse aborts the whole list. */
  function ToFhirAll<B, C>(codec: Codec<B>, rows: seq<Entity<C>>): (r: Result<seq<Resource<B>>, Failure>)
    ensures r.Success? <==> forall i :: 0 <= i < |rows| ==> codec.parse(rows[i].fhirResource).Success?
    ensures r.Success? ==> (|r.value| == |rows| &&
      forall i :: 0 <= i < |rows| ==> Success(r.value[i]) == ToFhir(codec, rows[i]))
  {
    if rows == [] then Success([])
    else
      match ToFhir(codec, rows[0])
      case Failure(f) => Failure(f)
      case Success(d) =>
        match ToFhirAll(codec, rows[1..])
        case Failure(f) => Failure(f)
        case Success(ds) =>
          assert forall i :: 1 <= i < |rows| ==> rows[1..][i - 1] == rows[i];
          Success([d] + ds)
  }

  /** Reading a row back never looks at its extracted columns. */
  lemma ToFhirReadsPayloadOnly<B, C>(codec: Codec<B>, e: Entity<C>, e': Entity<C>)
    requires e.fhirResource == e'.fhirResource
    ensures ToFhir(codec, e) == ToFhir(codec, e')
  {
  }

  /** The first row of a created resource carries version 1 in both the row and
      its own payload, and reads back as the document create returned. */
  lemma CreatedRowAgrees<B(!new), C>(mapper: (Resource<B>, Time) -> Entity<C>, codec: Codec<B>, d: Resource<B>, freshId: string, now: Time)
    requires Projects(mapper, codec) && RoundTrips(codec) && freshId != ""
    ensures var stamped := StampMeta(AssignId(d, freshId), 1, now);
      var row := CreatedRow(mapper, stamped, now);
      Storable(row) && row.fhirId == stamped.id &&
      ToFhir(codec, row) == Success(stamped) &&
      ParseNat(stamped.meta.value.versionId.value) == Some(row.versionId.value)
  {
    var stamped := StampMeta(AssignId(d, freshId), 1, now);
    assert codec.parse(codec.encode(stamped)) == Success(stamped);
  }

  /** After an update the payload's meta.versionId and the row's version agree. */
  lemma UpdatedRowAgrees<B(!new), C>(mapper: (Resource<B>, Time) -> Entity<C>, codec: Codec<B>, existing: Entity<C>, id: string, d: Resource<B>, now: Time)
    requires Projects(mapper, codec) && RoundTrips(codec) && Storable(existing)
    ensures var version := (existing.versionId.value + 1) as nat;
      var stamped := StampMeta(d.(id := Some(id)), version, now);
      var row := UpdatedRow(mapper, existing, stamped, version, now);
      Storable(row) && row.fhirId == Some(id) && row.createdAt == existing.createdAt &&
      ToFhir(codec, row) == Success(stamped) &&
      ParseNat(stamped.meta.value.versionId.value) == Some(row.versionId.value) &&
      row.versionId.value == existing.versionId.value + 1
  {
    var version := (existing.versionId.value + 1) as nat;
    var stamped := StampMeta(d.(id := Some(id)), version, now);
    assert codec.parse(codec.encode(stamped)) == Success(stamped);
  }

  /** Soft delete keeps the row findable, so a second delete (or a read) still finds it. */
  lemma {:induction false} DeletedRowStaysFindable<C>(rows: seq<Entity<C>>, id: string, now: Time)
    requires Stored(rows) && FindByFhirId(rows, id).Some?
    ensures var after := FindByFhirId(MarkDeleted(rows, id, now), id);
      after.Some? && !after.value.active &&
      after.value.(active := true, lastUpdated := 0) == FindByFhirId(rows, id).value.(active := true, lastUpdated := 0)
  {
    var k :| 0 <= k < |rows| && rows[k] == FindByFhirId(rows, id).value;
    MarkDeletedStored(rows, id, now);
    FindByFhirIdAt(MarkDeleted(rows, id, now), k, id);
  }

  /** Deleting twice leaves the table as one delete at the later time would. */
  lemma DeleteTwice<C>(rows: seq<Entity<C>>, id: string, t1: Time, t2: Time)
    ensures MarkDeleted(MarkDeleted(rows, id, t1), id, t2) == MarkDeleted(rows, id, t2)
  {
  }

  class ResourceService<B(!new), C, Q> {
    const resourceType: string
    const codec: Codec<B>
    const validate: Resource<B> -> ValidationResult
    const mapper: (Resource<B>, Time) -> Entity<C>
    const search: (seq<Entity<C>>, Q) -> seq<Entity<C>>
    const repository: Repository<C>

    ghost predicate Valid()
      reads this, repository
    {
      repository.Valid() && Projects(mapper, codec)
    }

    constructor(resourceType: string, codec: Codec<B>, validate: Resource<B> -> ValidationResult,
                mapper: (Resource<B>, Time) -> Entity<C>, search: (seq<Entity<C>>, Q) -> seq<Entity<C>>)
      requires Projects(mapper, codec)
      ensures Valid() && fresh(repository) && repository.rows == []
      ensures this.resourceType == resourceType && this.codec == codec
      ensures this.validate == validate && this.mapper == mapper && this.search == search
    {
      this.resourceType := resourceType;
      this.codec := codec;
      this.validate := validate;
      this.mapper := mapper;
      this.search := search;
      repository := new Repository();
    }

    /** Validate, assign a missing id, stamp version 1 and store the projection. */
    method Create(d: Resource<B>, freshId: string, now: Time) returns (r: Result<Resource<B>, Failure>)
      requires Valid() && freshId != ""
      modifies repository
      ensures Valid()
      ensures !validate(d).successful ==>
        r == Failure(ValidationFailure(validate(d))) && repository.rows == old(repository.rows)
      ensures validate(d).successful ==>
        var stamped := StampMeta(AssignId(d, freshId), 1, now);
        r == Success(stamped) &&
        repository.rows == Upsert(old(repository.rows), CreatedRow(mapper, stamped, now)) &&
        FindByFhirId(repository.rows, stamped.id.value) == Some(CreatedRow(mapper, stamped, now))
    {
      var v := validate(d);
      if !v.successful {
        return Failure(ValidationFailure(v));
      }
      var stamped := StampMeta(AssignId(d, freshId), 1, now);
      var row := CreatedRow(mapper, stamped, now);
      repository.Persist(row);
      r := Success(stamped);
    }

    /** Replace an existing resource: NotFound first, then validation, then a
        full row with version existing+1 and the original creation time. */
    method Update(id: string, d: Resource<B>, now: Time) returns (r: Result<Resource<B>, Failure>)
      requires Valid()
      modifies repository
      ensures Valid()
      ensures FindByFhirId(old(repository.rows), id).None? ==>
        r == Failure(NotFound(resourceType, id)) && repository.rows == old(repository.rows)
      ensures FindByFhirId(old(repository.rows), id).Some? && !validate(d).successful ==>
        r == Failure(ValidationFailure(validate(d))) && repository.rows == old(repository.rows)
      ensures FindByFhirId(old(repository.rows), id).Some? && validate(d).successful ==>
        var existing := FindByFhirId(old(repository.rows), id).value;
        var version := (existing.versionId.value + 1) as nat;
        var stamped := StampMeta(d.(id := Some(id)), version, now);
        var row := UpdatedRow(mapper, existing, stamped, version, now);
        r == Success(stamped) &&
        repository.rows == Upsert(old(repository.rows), row) &&
        FindByFhirId(repository.rows, id) == Some(row) &&
        row.versionId == Some(existing.versionId.value + 1) &&
        row.createdAt == existing.createdAt &&
        row.active == mapper(stamped, now).active
    {
      var found := FindByFhirId(repository.rows, id);
      if found.None? {
        return Failure(NotFound(resourceType, id));
      }
      var v := validate(d);
      if !v.successful {
        return Failure(ValidationFailure(v));
      }
      var existing := found.value;
      FoundStorable(repository.rows, id);
      var version := (existing.versionId.value + 1) as nat;
      var stamped := StampMeta(d.(id := Some(id)), version, now);
      var row := UpdatedRow(mapper, existing, stamped, version, now);
      repository.Persist(row);
      r := Success(stamped);
    }

    /** Read by id, whether the row is active or soft-deleted. */
    method Get(id: string) returns (r: Result<Resource<B>, Failure>)
      requires Valid()
      ensures FindByFhirId(repository.rows, id).None? ==> r == Failure(NotFound(resourceType, id))
      ensures FindByFhirId(repository.rows, id).Some? ==> r == ToFhir(codec, FindByFhirId(repository.rows, id).value)
    {
      var found := FindByFhirId(repository.rows, id);
      if found.None? {
        return Failure(NotFound(resourceType, id));
      }
      r := ToFhir(codec, found.value);
    }

    /** Soft delete: NotFound for an unknown id, otherwise clear the active flag. */
    method Delete(id: string, now: Time) returns (r: Result<(), Failure>)
      requires Valid()
      modifies repository
      ensures Valid()
      ensures FindByFhirId(old(repository.rows), id).None? ==>
        r == Failure(NotFound(resourceType, id)) && repository.rows == old(repository.rows)
      ensures FindByFhirId(old(repository.rows), id).Some? ==>
        r == Success(()) && repository.rows == MarkDeleted(old(repository.rows), id, now)
    {
      var found := FindByFhirId(repository.rows, id);
      if found.None? {
        return Failure(NotFound(resourceType, id));
      }
      repository.SoftDelete(id, now);
      r := Success(());
    }

    /** Run the family's dispatch and re-parse every row it returns, in order. */
    method Search(q: Q) returns (r: Result<seq<Resource<B>>, Failure>)
      requires Valid()
      ensures r == ToFhirAll(codec, search(repository.rows, q))
    {
      var rows := search(repository.rows, q);
      r := ToFhirAll(codec, rows);
    }
  }
}
