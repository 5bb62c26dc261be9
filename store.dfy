/** The relational store shared by the six families: one table per family whose
    rows carry the common columns (logical id, version, active flag, serialized
    document, timestamps) and the family's searchable columns `C`. */
module Store {
  import opened Wrappers
  import opened Fhir
  import opened Seqs

  datatype Entity<C> = Entity(
    fhirId: Option<string>,
    versionId: Option<int>,
    columns: C,
    active: bool,
    fhirResource: string,
    lastUpdated: Time,
    createdAt: Option<Time>)

  /** A row the services may write: it has a logical id, a version of at least 1
      and a creation time. */
  predicate Storable<C>(e: Entity<C>) {
    e.fhirId.Some? && e.versionId.Some? && e.versionId.value >= 1 && e.createdAt.Some?
  }

  /** The `fhir_id` column is unique. */
  ghost predicate UniqueIds<C>(rows: seq<Entity<C>>) {
    forall i, j :: 0 <= i < j < |rows| ==> rows[i].fhirId != rows[j].fhirId
  }

  ghost predicate Stored<C>(rows: seq<Entity<C>>) {
    UniqueIds(rows) && forall i :: 0 <= i < |rows| ==> Storable(rows[i])
  }

  /** `findByFhirId`: the row with this logical id, active or not. */
  function FindByFhirId<C>(rows: seq<Entity<C>>, id: string): (r: Option<Entity<C>>)
    ensures r.None? <==> forall i :: 0 <= i < |rows| ==> rows[i].fhirId != Some(id)
    ensures r.Some? ==> r.value in rows && r.value.fhirId == Some(id)
  {
    if rows == [] then None
    else if rows[0].fhirId == Some(id) then Some(rows[0])
    else FindByFhirId(rows[1..], id)
  }

  /** Every row found in a well-formed table is storable. */
  lemma FoundStorable<C>(rows: seq<Entity<C>>, id: string)
    requires Stored(rows) && FindByFhirId(rows, id).Some?
    ensures Storable(FindByFhirId(rows, id).value)
  {
    var k :| 0 <= k < |rows| && rows[k] == FindByFhirId(rows, id).value;
  }

  /** With unique ids, the row found is the one at the position holding the id. */
  lemma {:induction false} FindByFhirIdAt<C>(rows: seq<Entity<C>>, i: int, id: string)
    requires UniqueIds(rows) && 0 <= i < |rows| && rows[i].fhirId == Some(id)
    ensures FindByFhirId(rows, id) == Some(rows[i])
  {
    if i > 0 {
      assert rows[0].fhirId != rows[i].fhirId;
      assert UniqueIds(rows[1..]) by {
        forall a, b | 0 <= a < b < |rows| - 1
          ensures rows[1..][a].fhirId != rows[1..][b].fhirId
        {
          assert rows[1..][a] == rows[a + 1] && rows[1..][b] == rows[b + 1];
        }
      }
      FindByFhirIdAt(rows[1..], i - 1, id);
    }
  }

  /** The position of the first row holding this logical id. */
  function IndexOfId<C>(rows: seq<Entity<C>>, id: Option<string>): (r: Option<nat>)
    ensures r.None? <==> forall i :: 0 <= i < |rows| ==> rows[i].fhirId != id
    ensures r.Some? ==> r.value < |rows| && rows[r.value].fhirId == id
  {
    if rows == [] then None
    else if rows[0].fhirId == id then Some(0)
    else match IndexOfId(rows[1..], id)
      case None => None
      case Some(k) => Some(k + 1)
  }

  /** Saving a row: a row with the same logical id is replaced in place,
      otherwise the row is appended. */
  function Upsert<C>(rows: seq<Entity<C>>, e: Entity<C>): (r: seq<Entity<C>>)
    ensures |r| == |rows| || r == rows + [e]
    ensures e in r
    ensures forall i :: 0 <= i < |r| && r[i].fhirId != e.fhirId ==> r[i] in rows
    ensures forall i :: 0 <= i < |rows| && rows[i].fhirId != e.fhirId ==> r[i] == rows[i]
  {
    match IndexOfId(rows, e.fhirId)
    case Some(i) => assert rows[i := e][i] == e; rows[i := e]
    case None => assert (rows + [e])[|rows|] == e; rows + [e]
  }

  /** Saving keeps the table well formed. */
  lemma UpsertStored<C>(rows: seq<Entity<C>>, e: Entity<C>)
    requires Stored(rows) && Storable(e)
    ensures Stored(Upsert(rows, e))
  {
    var r := Upsert(rows, e);
    forall a, b | 0 <= a < b < |r| ensures r[a].fhirId != r[b].fhirId {
      match IndexOfId(rows, e.fhirId)
      case Some(i) =>
        if a != i && b != i {
          assert rows[a].fhirId != rows[b].fhirId;
        } else if a == i {
          assert rows[i].fhirId != rows[b].fhirId;
        } else {
          assert rows[a].fhirId != rows[i].fhirId;
        }
      case None =>
        if b < |rows| {
          assert rows[a].fhirId != rows[b].fhirId;
        }
    }
  }

  /** After saving, the row found under the saved id is the saved row, and the
      row found under every other id is the one found before. */
  lemma UpsertFind<C>(rows: seq<Entity<C>>, e: Entity<C>, id: string)
    requires Stored(rows) && Storable(e)
    ensures FindByFhirId(Upsert(rows, e), id) ==
      if Some(id) == e.fhirId then Some(e) else FindByFhirId(rows, id)
  {
    UpsertStored(rows, e);
    var r := Upsert(rows, e);
    var k :| 0 <= k < |r| && r[k] == e;
    if Some(id) == e.fhirId {
      FindByFhirIdAt(r, k, id);
    } else {
      match FindByFhirId(rows, id)
      case None =>
        forall i | 0 <= i < |r| ensures r[i].fhirId != Some(id) {
          if r[i].fhirId != e.fhirId {
            assert r[i] in rows;
          }
        }
      case Some(x) =>
        var j :| 0 <= j < |rows| && rows[j] == x;
        assert r[j] == rows[j];
        FindByFhirIdAt(r, j, id);
    }
  }

  /** Marking a row deleted: only its active flag and its last-updated time change. */
  function MarkDeleted<C>(rows: seq<Entity<C>>, id: string, now: Time): (r: seq<Entity<C>>)
    ensures |r| == |rows|
    ensures forall i :: 0 <= i < |rows| && rows[i].fhirId == Some(id) ==>
      !r[i].active && r[i].lastUpdated == now &&
      r[i].(active := rows[i].active, lastUpdated := rows[i].lastUpdated) == rows[i]
    ensures forall i :: 0 <= i < |rows| && rows[i].fhirId != Some(id) ==> r[i] == rows[i]
  {
    seq(|rows|, i requires 0 <= i < |rows| =>
      if rows[i].fhirId == Some(id) then rows[i].(active := false, lastUpdated := now) else rows[i])
  }

  lemma MarkDeletedStored<C>(rows: seq<Entity<C>>, id: string, now: Time)
    requires Stored(rows)
    ensures Stored(MarkDeleted(rows, id, now))
  {
    var r := MarkDeleted(rows, id, now);
    forall a, b | 0 <= a < b < |r| ensures r[a].fhirId != r[b].fhirId {
      assert r[a].fhirId == rows[a].fhirId && r[b].fhirId == rows[b].fhirId;
    }
  }

  /** `findByIdentifier`: with a system, system and value must both match;
      with a null system, the value alone; with a null value, nothing is
      returned. `activeOnly` says whether the family's query also requires
      the active flag. */
  function IdentifierRows<C(!new)>(rows: seq<Entity<C>>, systemOf: C -> Option<string>, valueOf: C -> Option<string>,
                                   system: Option<string>, value: Option<string>, activeOnly: bool): (r: seq<Entity<C>>)
    ensures value.None? ==> r == []
    ensures value.Some? ==> Exactly(r, rows, (e: Entity<C>) =>
      (activeOnly ==> e.active) && (system.Some? ==> systemOf(e.columns) == system) && valueOf(e.columns) == value)
  {
    if value.None? then []
    else
      var p := (e: Entity<C>) => (activeOnly ==> e.active) && (system.Some? ==> systemOf(e.columns) == system) && valueOf(e.columns) == value;
      SelectExactly(rows, p);
      Select(rows, p)
  }

  /** A table of one family, as the repository sees it. */
  class Repository<C> {
    var rows: seq<Entity<C>>

    ghost predicate Valid()
      reads this
    {
      Stored(rows)
    }

    constructor()
      ensures Valid() && rows == []
    {
      rows := [];
    }

    /** `persist`: insert the row, or overwrite the row with the same logical id. */
    method Persist(e: Entity<C>)
      requires Valid() && Storable(e)
      modifies this
      ensures Valid()
      ensures rows == Upsert(old(rows), e)
      ensures FindByFhirId(rows, e.fhirId.value) == Some(e)
      ensures forall id :: Some(id) != e.fhirId ==> FindByFhirId(rows, id) == FindByFhirId(old(rows), id)
    {
      UpsertStored(rows, e);
      forall id ensures FindByFhirId(Upsert(rows, e), id) ==
        if Some(id) == e.fhirId then Some(e) else FindByFhirId(rows, id)
      {
        UpsertFind(rows, e, id);
      }
      rows := Upsert(rows, e);
    }

    /** `softDelete`: clear the active flag of the row with this id and stamp it. */
    method SoftDelete(id: string, now: Time)
      requires Valid()
      modifies this
      ensures Valid()
      ensures rows == MarkDeleted(old(rows), id, now)
    {
      MarkDeletedStored(rows, id, now);
      rows := MarkDeleted(rows, id, now);
    }
  }
}
