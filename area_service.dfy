/** backend/internal/service/area_service.go. `Create` and the queries hand the
    repository's answer back unchanged; `Update` and `Delete` look the id up first and
    turn record-not-found into the domain error "área no encontrada". There is no
    service-level check on names: only the unique index refuses a duplicate. */
module AreaService {
  import opened Wrappers
  import opened Model
  import opened Errors
  import opened Store
  import AreaRepository

  class Service {
    const repo: AreaRepository.Repository

    constructor (repo: AreaRepository.Repository)
      ensures this.repo == repo
    {
      this.repo := repo;
    }

    /** `s.repo.Create(area)`: the outcome is decided by the table's constraints alone. */
    method Create(area: Area) returns (r: Result<Area, Error>)
      requires repo.db.Valid()
      modifies repo.db
      ensures repo.db.Valid()
      ensures repo.db.personas == old(repo.db.personas) && repo.db.personaSeq == old(repo.db.personaSeq)
      ensures repo.db.fault == old(repo.db.fault) && repo.db.lookupFault == old(repo.db.lookupFault)
      ensures old(repo.db.fault).Some? ==>
        r == Err(Unavailable(old(repo.db.fault).value))
        && repo.db.areas == old(repo.db.areas) && repo.db.areaSeq == old(repo.db.areaSeq)
      ensures r.Ok? <==>
        old(repo.db.fault).None? && AreaFitsColumns(area) && (area.id == 0 || area.id !in old(repo.db.areas))
        && !NombreTaken(old(repo.db.areas), area.nombre, 0)
      ensures r.Ok? ==>
        r.value == area.(id := r.value.id) && r.value.id != 0 && r.value.id !in old(repo.db.areas)
        && repo.db.areas == old(repo.db.areas)[r.value.id := Row(r.value, false)]
      ensures r.Err? ==> repo.db.areas == old(repo.db.areas)
      ensures old(repo.db.fault).None? && area.id == 0 ==> repo.db.areaSeq == old(repo.db.areaSeq) + 1
      ensures area.id != 0 ==>
        repo.db.areaSeq == if r.Ok? then SeqAfter(old(repo.db.areaSeq), area.id) else old(repo.db.areaSeq)
    {
      r := repo.Create(area);
    }

    /** `s.repo.GetAll()`: the visible areas, or the repository's error unchanged. */
    function GetAll(): (r: Result<seq<Area>, Error>)
      requires repo.db.Valid()
      reads repo.db
      ensures r.Err? <==> repo.db.fault.Some?
      ensures r.Err? ==> r.error == Unavailable(repo.db.fault.value)
      ensures r.Ok? ==> forall a :: a in r.value <==> Live(repo.db.areas, a.id) && repo.db.areas[a.id].value == a
      ensures r.Ok? ==> forall i, j :: 0 <= i < j < |r.value| ==> r.value[i].id < r.value[j].id
    {
      repo.GetAll()
    }

    /** `s.repo.GetByID(id)`: no translation of the not-found signal here. */
    function GetByID(id: nat): (r: Result<Area, Error>)
      requires repo.db.Valid()
      reads repo.db
      ensures repo.db.fault.None? ==> (r.Ok? <==> Live(repo.db.areas, id))
      ensures repo.db.fault.None? && !Live(repo.db.areas, id) ==> r == Err(RecordNotFound)
      ensures repo.db.fault.Some? ==> r == Err(Unavailable(repo.db.fault.value))
      ensures r.Ok? ==> r.value.id == id && Live(repo.db.areas, id) && r.value == repo.db.areas[id].value
    {
      repo.GetByID(id)
    }

    /** Look the id up; a missing row is "área no encontrada", any other lookup error is
        returned as it came; otherwise the path id overwrites the record's id and the
        record is saved. */
    method Update(id: nat, area: Area) returns (r: Result<Area, Error>)
      requires repo.db.Valid()
      modifies repo.db
      ensures repo.db.Valid()
      ensures repo.db.personas == old(repo.db.personas) && repo.db.personaSeq == old(repo.db.personaSeq)
      ensures repo.db.areaSeq == old(repo.db.areaSeq)
      ensures repo.db.fault == old(repo.db.fault) && repo.db.lookupFault == old(repo.db.lookupFault)
      ensures old(repo.db.fault).Some? ==>
        r == Err(Unavailable(old(repo.db.fault).value)) && unchanged(repo.db)
      ensures old(repo.db.fault).None? && !Live(old(repo.db.areas), id) ==>
        r == Err(AreaNotFound) && unchanged(repo.db)
      ensures old(repo.db.fault).None? && Live(old(repo.db.areas), id) ==>
        (r.Ok? <==> AreaFitsColumns(area) && !NombreTaken(old(repo.db.areas), area.nombre, id))
      ensures r.Ok? ==>
        r.value == area.(id := id) && repo.db.areas == old(repo.db.areas)[id := Row(area.(id := id), false)]
      ensures r.Err? ==> repo.db.areas == old(repo.db.areas)
    {
      var found := repo.GetByID(id);
      if found.Err? {
        if found.error == RecordNotFound {
          return Err(AreaNotFound);
        }
        return Err(found.error);
      }
      var saved := area.(id := id);
      r := repo.Update(saved);
    }

    /** Look the id up first, then soft-delete it. Deleting an id twice therefore reports
        "área no encontrada" the second time. */
    method Delete(id: nat) returns (err: Option<Error>)
      requires repo.db.Valid()
      modifies repo.db
      ensures repo.db.Valid()
      ensures repo.db.personas == old(repo.db.personas) && repo.db.personaSeq == old(repo.db.personaSeq)
      ensures repo.db.areaSeq == old(repo.db.areaSeq)
      ensures repo.db.fault == old(repo.db.fault) && repo.db.lookupFault == old(repo.db.lookupFault)
      ensures old(repo.db.fault).Some? ==> err == Some(Unavailable(old(repo.db.fault).value)) && unchanged(repo.db)
      ensures old(repo.db.fault).None? && !Live(old(repo.db.areas), id) ==> err == Some(AreaNotFound) && unchanged(repo.db)
      ensures old(repo.db.fault).None? && Live(old(repo.db.areas), id) ==>
        err == None && repo.db.areas == SoftDelete(old(repo.db.areas), id)
      ensures err == None ==> !Live(repo.db.areas, id) && repo.db.areas.Keys == old(repo.db.areas).Keys
    {
      var found := repo.GetByID(id);
      if found.Err? {
        if found.error == RecordNotFound {
          return Some(AreaNotFound);
        }
        return Some(found.error);
      }
      err := repo.Delete(id);
    }

    /** `s.repo.GetAreasConConteo()`. */
    function GetAreasConConteo(): (r: Result<seq<AreaConConteo>, Error>)
      requires repo.db.Valid()
      reads repo.db
      ensures r.Err? <==> repo.db.fault.Some?
      ensures r.Err? ==> r.error == Unavailable(repo.db.fault.value)
      ensures r.Ok? ==> forall i :: 0 <= i < |r.value| ==>
        && Live(repo.db.areas, r.value[i].id)
        && r.value[i].nombre == repo.db.areas[r.value[i].id].value.nombre
        && r.value[i].descripcion == repo.db.areas[r.value[i].id].value.descripcion
        && r.value[i].personas == CountPersonas(repo.db.personas, r.value[i].id)
      ensures r.Ok? ==> forall id :: Live(repo.db.areas, id) ==> exists i :: 0 <= i < |r.value| && r.value[i].id == id
      ensures r.Ok? ==> forall i, j :: 0 <= i < j < |r.value| ==> r.value[i].id < r.value[j].id
      ensures r.Ok? ==>
        SumPersonas(r.value) ==
          |set k | k in repo.db.personas && !repo.db.personas[k].deleted
                   && Live(repo.db.areas, repo.db.personas[k].value.areaId)|
    {
      repo.GetAreasConConteo()
    }
  }
}
