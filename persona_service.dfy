/** backend/internal/service/persona_service.go. `Create` refuses an email a visible
    person already has; `Update` translates a missing id into "persona no encontrada" and
    re-checks the email only when it changes, allowing a match on the same id; `Delete`
    looks the id up first. The getters hand the repository's answer back unchanged. */
module PersonaService {
  import opened Wrappers
  import opened Model
  import opened Errors
  import opened Store
  import PersonaRepository

  /** A visible person holds this email. */
  predicate EmailInUse(t: Table<Persona>, email: string)
  {
    exists k :: k in t && HoldsEmail(t, k, email)
  }

  class Service {
    const repo: PersonaRepository.Repository

    constructor (repo: PersonaRepository.Repository)
      ensures this.repo == repo
    {
      this.repo := repo;
    }

    /** Look the email up; if a visible person has it, fail with "el correo electrónico
        ya está registrado" and write nothing. A failed lookup is not reported: the insert
        goes ahead, and a duplicate is then refused by the unique index (which also counts
        deleted rows) with the index's error instead. */
    method Create(persona: Persona) returns (r: Result<Persona, Error>)
      requires repo.db.Valid()
      modifies repo.db
      ensures repo.db.Valid()
      ensures repo.db.areas == old(repo.db.areas) && repo.db.areaSeq == old(repo.db.areaSeq)
      ensures repo.db.fault == old(repo.db.fault) && repo.db.lookupFault == old(repo.db.lookupFault)
      ensures old(repo.db.fault).Some? ==>
        r == Err(Unavailable(old(repo.db.fault).value))
        && repo.db.personas == old(repo.db.personas) && repo.db.personaSeq == old(repo.db.personaSeq)
      ensures old(repo.db.fault).None? && old(repo.db.lookupFault).None?
              && EmailInUse(old(repo.db.personas), persona.email) ==>
        r == Err(EmailTaken) && unchanged(repo.db)
      ensures old(repo.db.fault).None?
              && (old(repo.db.lookupFault).Some? || !EmailInUse(old(repo.db.personas), persona.email)) ==>
        (r.Ok? <==> PersonaFitsColumns(persona) && (persona.id == 0 || persona.id !in old(repo.db.personas))
                    && !EmailHeld(old(repo.db.personas), persona.email, 0) && persona.areaId in old(repo.db.areas))
      ensures old(repo.db.fault).None? && old(repo.db.lookupFault).Some?
              && PersonaFitsColumns(persona) && (persona.id == 0 || persona.id !in old(repo.db.personas))
              && EmailInUse(old(repo.db.personas), persona.email) ==>
        r == Err(UniqueViolation("email"))
      ensures old(repo.db.fault).None? && persona.id == 0
              && (old(repo.db.lookupFault).Some? || !EmailInUse(old(repo.db.personas), persona.email)) ==>
        repo.db.personaSeq == old(repo.db.personaSeq) + 1
      ensures old(repo.db.fault).None? && persona.id != 0
              && (old(repo.db.lookupFault).Some? || !EmailInUse(old(repo.db.personas), persona.email)) ==>
        repo.db.personaSeq ==
          if r.Ok? then SeqAfter(old(repo.db.personaSeq), persona.id) else old(repo.db.personaSeq)
      ensures r.Ok? ==>
        && r.value == persona.(id := r.value.id) && r.value.id != 0
        && r.value.id !in old(repo.db.personas)
        && repo.db.personas == old(repo.db.personas)[r.value.id := PersonaRepository.StoredRow(r.value)]
        && |repo.db.personas| == |old(repo.db.personas)| + 1
      ensures r.Err? ==> repo.db.personas == old(repo.db.personas)
    {
      var existing := repo.GetByEmail(persona.email);
      if existing.Err? && repo.db.fault.None? && repo.db.lookupFault.Some? && EmailInUse(repo.db.personas, persona.email) {
        var k :| k in repo.db.personas && HoldsEmail(repo.db.personas, k, persona.email);
        assert k != 0;
      }
      if existing.Ok? && existing.value.id != 0 {
        return Err(EmailTaken);
      }
      r := repo.Create(persona);
    }

    function GetAll(): (r: Result<seq<Persona>, Error>)
      requires repo.db.Valid()
      reads repo.db
      ensures r.Err? <==> repo.db.fault.Some?
      ensures r.Err? ==> r.error == Unavailable(repo.db.fault.value)
      ensures r.Ok? ==> forall p :: p in r.value <==>
        Live(repo.db.personas, p.id) && p == Attach(repo.db.areas, repo.db.personas[p.id].value)
      ensures r.Ok? ==> forall i, j :: 0 <= i < j < |r.value| ==> r.value[i].id < r.value[j].id
    {
      repo.GetAll()
    }

    function GetByID(id: nat): (r: Result<Persona, Error>)
      requires repo.db.Valid()
      reads repo.db
      ensures repo.db.fault.None? ==> (r.Ok? <==> Live(repo.db.personas, id))
      ensures repo.db.fault.None? && !Live(repo.db.personas, id) ==> r == Err(RecordNotFound)
      ensures repo.db.fault.Some? ==> r == Err(Unavailable(repo.db.fault.value))
      ensures r.Ok? ==> Live(repo.db.personas, id) && r.value == Attach(repo.db.areas, repo.db.personas[id].value)
    {
      repo.GetByID(id)
    }

    function GetByEmail(email: string): (r: Result<Persona, Error>)
      requires repo.db.Valid()
      reads repo.db
      ensures repo.db.fault.None? && repo.db.lookupFault.None? ==> (r.Ok? <==> EmailInUse(repo.db.personas, email))
      ensures repo.db.fault.Some? ==> r == Err(Unavailable(repo.db.fault.value))
      ensures repo.db.fault.None? && repo.db.lookupFault.Some? ==> r == Err(Unavailable(repo.db.lookupFault.value))
      ensures r.Ok? ==> r.value.email == email && Live(repo.db.personas, r.value.id)
                        && r.value == repo.db.personas[r.value.id].value && r.value.area.None?
    {
      repo.GetByEmail(email)
    }

    /** Look the id up ("persona no encontrada" when missing, other errors as they came).
        Only when the email differs from the stored one is it looked up, and a visible
        holder with another id is a duplicate. Then the path id overwrites the record's
        id and the record is saved. A failed email lookup is not reported: the save goes
        ahead and meets the unique index. */
    method Update(id: nat, persona: Persona) returns (r: Result<Persona, Error>)
      requires repo.db.Valid()
      modifies repo.db
      ensures repo.db.Valid()
      ensures repo.db.areas == old(repo.db.areas) && repo.db.areaSeq == old(repo.db.areaSeq)
      ensures repo.db.personaSeq == old(repo.db.personaSeq)
      ensures repo.db.fault == old(repo.db.fault) && repo.db.lookupFault == old(repo.db.lookupFault)
      ensures old(repo.db.fault).Some? ==>
        r == Err(Unavailable(old(repo.db.fault).value)) && unchanged(repo.db)
      ensures old(repo.db.fault).None? && !Live(old(repo.db.personas), id) ==>
        r == Err(PersonaNotFound) && unchanged(repo.db)
      ensures old(repo.db.fault).None? && old(repo.db.lookupFault).None? && Live(old(repo.db.personas), id)
              && persona.email != old(repo.db.personas)[id].value.email
              && EmailInUse(old(repo.db.personas), persona.email) ==>
        r == Err(EmailTaken) && unchanged(repo.db)
      ensures old(repo.db.fault).None? && Live(old(repo.db.personas), id)
              && (persona.email == old(repo.db.personas)[id].value.email
                  || old(repo.db.lookupFault).Some?
                  || !EmailInUse(old(repo.db.personas), persona.email)) ==>
        (r.Ok? <==> PersonaFitsColumns(persona) && !EmailHeld(old(repo.db.personas), persona.email, id)
                    && persona.areaId in old(repo.db.areas))
      ensures old(repo.db.fault).None? && Live(old(repo.db.personas), id)
              && persona.email == old(repo.db.personas)[id].value.email ==>
        r != Err(EmailTaken)
      ensures r.Ok? ==>
        r.value == persona.(id := id)
        && repo.db.personas == old(repo.db.personas)[id := PersonaRepository.StoredRow(persona.(id := id))]
      ensures r.Err? ==> repo.db.personas == old(repo.db.personas)
    {
      var existing := repo.GetByID(id);
      if existing.Err? {
        if existing.error == RecordNotFound {
          return Err(PersonaNotFound);
        }
        return Err(existing.error);
      }
      if persona.email != existing.value.email {
        var holder := repo.GetByEmail(persona.email);
        if holder.Ok? && holder.value.id != id {
          return Err(EmailTaken);
        }
      }
      var saved := persona.(id := id);
      r := repo.Update(saved);
    }

    /** Look the id up first ("persona no encontrada" when missing), then soft-delete. */
    method Delete(id: nat) returns (err: Option<Error>)
      requires repo.db.Valid()
      modifies repo.db
      ensures repo.db.Valid()
      ensures repo.db.areas == old(repo.db.areas) && repo.db.areaSeq == old(repo.db.areaSeq)
      ensures repo.db.personaSeq == old(repo.db.personaSeq)
      ensures repo.db.fault == old(repo.db.fault) && repo.db.lookupFault == old(repo.db.lookupFault)
      ensures old(repo.db.fault).Some? ==> err == Some(Unavailable(old(repo.db.fault).value)) && unchanged(repo.db)
      ensures old(repo.db.fault).None? && !Live(old(repo.db.personas), id) ==>
        err == Some(PersonaNotFound) && unchanged(repo.db)
      ensures old(repo.db.fault).None? && Live(old(repo.db.personas), id) ==>
        err == None && repo.db.personas == SoftDelete(old(repo.db.personas), id)
        && GetByID(id) == Err(RecordNotFound)
      ensures old(repo.db.fault).None? && old(repo.db.lookupFault).None? && Live(old(repo.db.personas), id) ==>
        GetByEmail(old(repo.db.personas)[id].value.email) == Err(RecordNotFound)
    {
      var existing := repo.GetByID(id);
      if existing.Err? {
        if existing.error == RecordNotFound {
          return Some(PersonaNotFound);
        }
        return Some(existing.error);
      }
      err := repo.Delete(id);
    }
  }
}
