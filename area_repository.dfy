/** backend/internal/repository/area_repository.go: the GORM calls on the `areas` table,
    over the shared `Store.Database`. */
module AreaRepository {
  import opened Wrappers
  import opened Model
  import opened Errors
  import opened Store

  class Repository {
    const db: Database

    constructor (db: Database)
      ensures this.db == db
    {
      this.db := db;
    }

    /** `db.Create(area)`: insert the row and write the assigned id back. An id of 0 draws
        the next sequence value, which is used up even if the insert then fails; an
        explicit id is inserted as given. Constraint checks, in the order Postgres makes
        them: column width, primary key, unique `nombre` (across deleted rows too). */
    method Create(area: Area) returns (r: Result<Area, Error>)
      requires db.Valid()
      modifies db
      ensures db.Valid()
      ensures db.personas == old(db.personas) && db.personaSeq == old(db.personaSeq)
      ensures db.fault == old(db.fault) && db.lookupFault == old(db.lookupFault)
      ensures old(db.fault).Some? ==>
        r == Err(Unavailable(old(db.fault).value)) && db.areas == old(db.areas) && db.areaSeq == old(db.areaSeq)
      ensures r.Ok? <==>
        old(db.fault).None? && AreaFitsColumns(area) && (area.id == 0 || area.id !in old(db.areas))
        && !NombreTaken(old(db.areas), area.nombre, 0)
      ensures old(db.fault).None? && !AreaFitsColumns(area) ==> r == Err(ValueTooLong("nombre"))
      ensures r.Ok? ==>
        && r.value == area.(id := r.value.id)
        && r.value.id != 0 && r.value.id !in old(db.areas)
        && r.value.id == (if area.id == 0 then old(db.areaSeq) else area.id)
        && db.areas == old(db.areas)[r.value.id := Row(r.value, false)]
      ensures r.Err? ==> db.areas == old(db.areas) && IsStorageError(r.error)
      ensures old(db.fault).None? && area.id == 0 ==> db.areaSeq == old(db.areaSeq) + 1
      ensures area.id != 0 ==> db.areaSeq == if r.Ok? then SeqAfter(old(db.areaSeq), area.id) else old(db.areaSeq)
    {
      if db.fault.Some? {
        return Err(Unavailable(db.fault.value));
      }
      var id := area.id;
      if id == 0 {
        id := db.areaSeq;
        db.areaSeq := db.areaSeq + 1;
      }
      if !AreaFitsColumns(area) {
        return Err(ValueTooLong("nombre"));
      }
      if id in db.areas {
        return Err(UniqueViolation("id"));
      }
      if NombreTaken(db.areas, area.nombre, 0) {
        return Err(UniqueViolation("nombre"));
      }
      var created := area.(id := id);
      db.areas, db.areaSeq := db.areas[id := Row(created, false)], SeqAfter(db.areaSeq, id);
      return Ok(created);
    }

    /** `db.Find(&areas)`: the visible areas, in ascending id order. */
    function GetAll(): (r: Result<seq<Area>, Error>)
      requires db.Valid()
      reads db
      ensures r.Err? <==> db.fault.Some?
      ensures r.Err? ==> r.error == Unavailable(db.fault.value)
      ensures r.Ok? ==> forall a :: a in r.value <==> Live(db.areas, a.id) && db.areas[a.id].value == a
      ensures r.Ok? ==> forall i, j :: 0 <= i < j < |r.value| ==> r.value[i].id < r.value[j].id
    {
      LiveAreasMembers(db.areas, db.areaSeq);
      LiveAreasAscending(db.areas, db.areaSeq);
      if db.fault.Some? then Err(Unavailable(db.fault.value)) else Ok(LiveAreas(db.areas, db.areaSeq))
    }

    /** `db.First(&area, id)`: the visible row with that id, or record-not-found. */
    function GetByID(id: nat): (r: Result<Area, Error>)
      requires db.Valid()
      reads db
      ensures db.fault.Some? ==> r == Err(Unavailable(db.fault.value))
      ensures db.fault.None? ==> (r.Ok? <==> Live(db.areas, id))
      ensures db.fault.None? && !Live(db.areas, id) ==> r == Err(RecordNotFound)
      ensures r.Ok? ==> r.value.id == id && r.value == db.areas[id].value
    {
      if db.fault.Some? then Err(Unavailable(db.fault.value))
      else if Live(db.areas, id) then Ok(db.areas[id].value)
      else Err(RecordNotFound)
    }

    /** `db.Save(area)`: a zero id creates; otherwise the row under that id becomes the
        given record (an upsert that also makes a soft-deleted row visible again),
        subject to the column width and to `nombre` being unique among the other rows. */
    method Update(area: Area) returns (r: Result<Area, Error>)
      requires db.Valid()
      modifies db
      ensures db.Valid()
      ensures db.personas == old(db.personas) && db.personaSeq == old(db.personaSeq)
      ensures db.fault == old(db.fault) && db.lookupFault == old(db.lookupFault)
      ensures old(db.fault).Some? ==>
        r == Err(Unavailable(old(db.fault).value)) && db.areas == old(db.areas) && db.areaSeq == old(db.areaSeq)
      ensures area.id != 0 ==>
        (r.Ok? <==> old(db.fault).None? && AreaFitsColumns(area) && !NombreTaken(old(db.areas), area.nombre, area.id))
      ensures area.id != 0 && r.Ok? ==> r.value == area && db.areas == old(db.areas)[area.id := Row(area, false)]
      ensures area.id == 0 ==>
        (r.Ok? <==> old(db.fault).None? && AreaFitsColumns(area) && !NombreTaken(old(db.areas), area.nombre, 0))
      ensures area.id == 0 && r.Ok? ==> r.value == area.(id := r.value.id) && r.value.id !in old(db.areas)
                                        && db.areas == old(db.areas)[r.value.id := Row(r.value, false)]
      ensures r.Err? ==> db.areas == old(db.areas) && IsStorageError(r.error)
      ensures old(db.fault).None? && area.id == 0 ==> db.areaSeq == old(db.areaSeq) + 1
      ensures area.id != 0 ==> db.areaSeq == if r.Ok? then SeqAfter(old(db.areaSeq), area.id) else old(db.areaSeq)
    {
      if db.fault.Some? {
        return Err(Unavailable(db.fault.value));
      }
      if area.id == 0 {
        r := Create(area);
        return;
      }
      if !AreaFitsColumns(area) {
        return Err(ValueTooLong("nombre"));
      }
      if NombreTaken(db.areas, area.nombre, area.id) {
        return Err(UniqueViolation("nombre"));
      }
      db.areas, db.areaSeq := db.areas[area.id := Row(area, false)], SeqAfter(db.areaSeq, area.id);
      return Ok(area);
    }

    /** `db.Delete(&model.Area{}, id)`: soft delete. An id with no visible row is not an
        error: nothing is updated. */
    method Delete(id: nat) returns (err: Option<Error>)
      requires db.Valid()
      modifies db
      ensures db.Valid()
      ensures db.personas == old(db.personas) && db.personaSeq == old(db.personaSeq)
      ensures db.areaSeq == old(db.areaSeq) && db.fault == old(db.fault) && db.lookupFault == old(db.lookupFault)
      ensures old(db.fault).Some? ==> err == Some(Unavailable(old(db.fault).value)) && db.areas == old(db.areas)
      ensures old(db.fault).None? ==> err == None && db.areas == SoftDelete(old(db.areas), id)
      ensures old(db.fault).None? ==> GetByID(id) == Err(RecordNotFound)
      ensures old(db.fault).None? ==>
        GetAll().Ok? && forall a :: a in GetAll().value <==> a in old(GetAll()).value && a.id != id
    {
      if db.fault.Some? {
        return Some(Unavailable(db.fault.value));
      }
      DeletedAreaLeavesList(db.areas, id, db.areaSeq);
      db.areas := SoftDelete(db.areas, id);
      return None;
    }

    /** The LEFT JOIN / GROUP BY query: one row per visible area, ascending by id, with the
        number of visible persons that reference it; the counts add up to the number of
        visible persons whose area is visible. */
    function GetAreasConConteo(): (r: Result<seq<AreaConConteo>, Error>)
      requires db.Valid()
      reads db
      ensures r.Err? <==> db.fault.Some?
      ensures r.Err? ==> r.error == Unavailable(db.fault.value)
      ensures r.Ok? ==> forall i :: 0 <= i < |r.value| ==>
        && Live(db.areas, r.value[i].id)
        && r.value[i].nombre == db.areas[r.value[i].id].value.nombre
        && r.value[i].descripcion == db.areas[r.value[i].id].value.descripcion
        && r.value[i].personas == CountPersonas(db.personas, r.value[i].id)
      ensures r.Ok? ==> forall id :: Live(db.areas, id) ==> exists i :: 0 <= i < |r.value| && r.value[i].id == id
      ensures r.Ok? ==> forall i, j :: 0 <= i < j < |r.value| ==> r.value[i].id < r.value[j].id
      ensures r.Ok? ==>
        SumPersonas(r.value) ==
          |set k | k in db.personas && !db.personas[k].deleted && Live(db.areas, db.personas[k].value.areaId)|
    {
      ConteoRows(db.areas, db.personas, db.areaSeq);
      TotalOfConteo(db.areas, db.personas, db.areaSeq);
      if db.fault.Some? then Err(Unavailable(db.fault.value)) else Ok(Conteo(db.areas, db.personas, db.areaSeq))
    }
  }
}
