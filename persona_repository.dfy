/** backend/internal/repository/persona_repository.go: the GORM calls on the `personas`
    table, over the shared `Store.Database`. */
module PersonaRepository {
  import opened Wrappers
  import opened Model
  import opened Errors
  import opened Store

  /** The row that is stored for a record: the `Area` association is not a column. */
  function StoredRow(p: Persona): Row<Persona>
  {
    Row(p.(area := None), false)
  }

  /** Writing an acceptable record under its id keeps the table's constraints. */
  lemma PutKeepsConstraints(t: Table<Persona>, areas: Table<Area>, next: nat, next': nat, p: Persona)
    requires PersonasOk(t, areas, next)
    requires 0 < p.id < next' && next <= next'
    requires PersonaFitsColumns(p) && !EmailHeld(t, p.email, p.id) && p.areaId in areas
    ensures PersonasOk(t[p.id := StoredRow(p)], areas, next')
    ensures |t[p.id := StoredRow(p)]| == if p.id in t then |t| else |t| + 1
  {
    PutKeepsEmailsUnique(t, p);
    PutKeepsRows(t, areas, next, next', p);
    PutSize(t, StoredRow(p), p.id);
  }

  /** Every row, the written one included, sits under its id below the sequence, stores no
      association, fits its columns and references an area row. */
  lemma PutKeepsRows(t: Table<Persona>, areas: Table<Area>, next: nat, next': nat, p: Persona)
    requires PersonasOk(t, areas, next)
    requires 0 < p.id < next' && next <= next'
    requires PersonaFitsColumns(p) && p.areaId in areas
    ensures var t' := t[p.id := StoredRow(p)];
      && PersonasKeyed(t')
      && forall k :: k in t' ==>
           0 < k < next' && t'[k].value.area.None? && PersonaFitsColumns(t'[k].value) && t'[k].value.areaId in areas
  {
  }

  /** A write under a new key adds one row; under an existing key it adds none. */
  lemma PutSize<T>(t: Table<T>, row: Row<T>, id: nat)
    ensures |t[id := row]| == if id in t then |t| else |t| + 1
  {
    if id !in t {
      assert t[id := row].Keys == t.Keys + {id};
    } else {
      assert t[id := row].Keys == t.Keys;
    }
  }

  /** The unique email index survives a write whose email no other row holds. */
  lemma PutKeepsEmailsUnique(t: Table<Persona>, p: Persona)
    requires forall j, k :: j in t && k in t && j != k ==> t[j].value.email != t[k].value.email
    requires !EmailHeld(t, p.email, p.id)
    ensures var t' := t[p.id := StoredRow(p)];
      forall j, k :: j in t' && k in t' && j != k ==> t'[j].value.email != t'[k].value.email
  {
    var t' := t[p.id := StoredRow(p)];
    forall j, k | j in t' && k in t' && j != k ensures t'[j].value.email != t'[k].value.email {
      if j == p.id {
        assert !(k in t && k != p.id && t[k].value.email == p.email);
      } else if k == p.id {
        assert !(j in t && j != p.id && t[j].value.email == p.email);
      }
    }
  }

  class Repository {
    const db: Database

    constructor (db: Database)
      ensures this.db == db
    {
      this.db := db;
    }

    /** `db.Create(persona)`: insert and write the assigned id back. Checks in Postgres's
        order: column widths, primary key, unique `email` (deleted rows included), and the
        foreign key from `area_id` to a row of `areas`. */
    method Create(persona: Persona) returns (r: Result<Persona, Error>)
      requires db.Valid()
      modifies db
      ensures db.Valid()
      ensures db.areas == old(db.areas) && db.areaSeq == old(db.areaSeq)
      ensures db.fault == old(db.fault) && db.lookupFault == old(db.lookupFault)
      ensures old(db.fault).Some? ==>
        r == Err(Unavailable(old(db.fault).value)) && db.personas == old(db.personas) && db.personaSeq == old(db.personaSeq)
      ensures r.Ok? <==>
        old(db.fault).None? && PersonaFitsColumns(persona) && (persona.id == 0 || persona.id !in old(db.personas))
        && !EmailHeld(old(db.personas), persona.email, 0) && persona.areaId in old(db.areas)
      ensures old(db.fault).None? && PersonaFitsColumns(persona) && (persona.id == 0 || persona.id !in old(db.personas))
              && EmailHeld(old(db.personas), persona.email, 0) ==>
        r == Err(UniqueViolation("email"))
      ensures r.Ok? ==>
        && r.value == persona.(id := r.value.id)
        && r.value.id != 0 && r.value.id !in old(db.personas)
        && r.value.id == (if persona.id == 0 then old(db.personaSeq) else persona.id)
        && db.personas == old(db.personas)[r.value.id := StoredRow(r.value)]
        && |db.personas| == |old(db.personas)| + 1
      ensures r.Err? ==> db.personas == old(db.personas) && IsStorageError(r.error)
      ensures old(db.fault).None? && persona.id == 0 ==> db.personaSeq == old(db.personaSeq) + 1
      ensures persona.id != 0 ==>
        db.personaSeq == if r.Ok? then SeqAfter(old(db.personaSeq), persona.id) else old(db.personaSeq)
    {
      if db.fault.Some? {
        return Err(Unavailable(db.fault.value));
      }
      var id := persona.id;
      if id == 0 {
        id := db.personaSeq;
        db.personaSeq := db.personaSeq + 1;
      }
      if |persona.nombre| > PersonaNombreMax {
        return Err(ValueTooLong("nombre"));
      }
      if |persona.email| > PersonaEmailMax {
        return Err(ValueTooLong("email"));
      }
      if id in db.personas {
        return Err(UniqueViolation("id"));
      }
      if EmailHeld(db.personas, persona.email, 0) {
        return Err(UniqueViolation("email"));
      }
      if persona.areaId !in db.areas {
        return Err(ForeignKeyViolation);
      }
      var created := persona.(id := id);
      var next := SeqAfter(db.personaSeq, id);
      PutKeepsConstraints(db.personas, db.areas, db.personaSeq, next, created);
      db.personas, db.personaSeq := db.personas[id := StoredRow(created)], next;
      return Ok(created);
    }

    /** `db.Preload("Area").Find(&personas)`: the visible persons, each with its visible
        area attached, in ascending id order (the order this model fixes). */
    function GetAll(): (r: Result<seq<Persona>, Error>)
      requires db.Valid()
      reads db
      ensures r.Err? <==> db.fault.Some?
      ensures r.Err? ==> r.error == Unavailable(db.fault.value)
      ensures r.Ok? ==> forall p :: p in r.value <==>
        Live(db.personas, p.id) && p == Attach(db.areas, db.personas[p.id].value)
      ensures r.Ok? ==> forall i, j :: 0 <= i < j < |r.value| ==> r.value[i].id < r.value[j].id
    {
      LivePersonasMembers(db.personas, db.areas, db.personaSeq);
      LivePersonasAscending(db.personas, db.areas, db.personaSeq);
      if db.fault.Some? then Err(Unavailable(db.fault.value))
      else Ok(LivePersonas(db.personas, db.areas, db.personaSeq))
    }

    /** `db.Preload("Area").First(&persona, id)`: the stored person under that id with the
        area its `area_id` names attached when that area is visible. */
    function GetByID(id: nat): (r: Result<Persona, Error>)
      requires db.Valid()
      reads db
      ensures db.fault.Some? ==> r == Err(Unavailable(db.fault.value))
      ensures db.fault.None? ==> (r.Ok? <==> Live(db.personas, id))
      ensures db.fault.None? && !Live(db.personas, id) ==> r == Err(RecordNotFound)
      ensures r.Ok? ==> r.value == Attach(db.areas, db.personas[id].value)
      ensures r.Ok? ==>
        && r.value.id == id && r.value.nombre == db.personas[id].value.nombre
        && r.value.email == db.personas[id].value.email && r.value.areaId == db.personas[id].value.areaId
        && (r.value.area.Some? <==> Live(db.areas, r.value.areaId))
        && (r.value.area.Some? ==> r.value.area.value == db.areas[r.value.areaId].value)
    {
      if db.fault.Some? then Err(Unavailable(db.fault.value))
      else if Live(db.personas, id) then Ok(Attach(db.areas, db.personas[id].value))
      else Err(RecordNotFound)
    }

    /** `db.Where("email = ?", email).First(&persona)`: the visible row with exactly that
        email, without the association; deleted rows are invisible to it even though the
        unique index still counts them. A failure of this query alone is `lookupFault`. */
    function GetByEmail(email: string): (r: Result<Persona, Error>)
      requires db.Valid()
      reads db
      ensures db.fault.Some? ==> r == Err(Unavailable(db.fault.value))
      ensures db.fault.None? && db.lookupFault.Some? ==> r == Err(Unavailable(db.lookupFault.value))
      ensures db.fault.None? && db.lookupFault.None? ==> (r.Ok? <==> exists k :: HoldsEmail(db.personas, k, email))
      ensures db.fault.None? && db.lookupFault.None? && r.Err? ==> r.error == RecordNotFound
      ensures r.Ok? ==> r.value.email == email && r.value.id != 0 && HoldsEmail(db.personas, r.value.id, email)
                        && r.value == db.personas[r.value.id].value && r.value.area.None?
    {
      if db.fault.Some? then Err(Unavailable(db.fault.value))
      else if db.lookupFault.Some? then Err(Unavailable(db.lookupFault.value))
      else
        match FirstByEmail(db.personas, email, db.personaSeq)
        case Some(p) => Ok(p)
        case None => Err(RecordNotFound)
    }

    /** `db.Save(persona)`: a zero id creates; otherwise the row under that id becomes the
        given record (visible again if it was deleted), subject to the column widths, to
        `email` being unique among the other rows and to the foreign key. */
    method Update(persona: Persona) returns (r: Result<Persona, Error>)
      requires db.Valid()
      modifies db
      ensures db.Valid()
      ensures db.areas == old(db.areas) && db.areaSeq == old(db.areaSeq)
      ensures db.fault == old(db.fault) && db.lookupFault == old(db.lookupFault)
      ensures old(db.fault).Some? ==>
        r == Err(Unavailable(old(db.fault).value)) && db.personas == old(db.personas) && db.personaSeq == old(db.personaSeq)
      ensures persona.id != 0 ==>
        (r.Ok? <==> old(db.fault).None? && PersonaFitsColumns(persona)
                    && !EmailHeld(old(db.personas), persona.email, persona.id) && persona.areaId in old(db.areas))
      ensures persona.id != 0 && r.Ok? ==>
        r.value == persona && db.personas == old(db.personas)[persona.id := StoredRow(persona)]
      ensures persona.id == 0 ==>
        (r.Ok? <==> old(db.fault).None? && PersonaFitsColumns(persona)
                    && !EmailHeld(old(db.personas), persona.email, 0) && persona.areaId in old(db.areas))
      ensures persona.id == 0 && r.Ok? ==>
        r.value == persona.(id := r.value.id) && r.value.id !in old(db.personas)
        && db.personas == old(db.personas)[r.value.id := StoredRow(r.value)]
      ensures r.Err? ==> db.personas == old(db.personas) && IsStorageError(r.error)
      ensures old(db.fault).None? && persona.id == 0 ==> db.personaSeq == old(db.personaSeq) + 1
      ensures persona.id != 0 ==>
        db.personaSeq == if r.Ok? then SeqAfter(old(db.personaSeq), persona.id) else old(db.personaSeq)
    {
      if db.fault.Some? {
        return Err(Unavailable(db.fault.value));
      }
      if persona.id == 0 {
        r := Create(persona);
        return;
      }
      if |persona.nombre| > PersonaNombreMax {
        return Err(ValueTooLong("nombre"));
      }
      if |persona.email| > PersonaEmailMax {
        return Err(ValueTooLong("email"));
      }
      if EmailHeld(db.personas, persona.email, persona.id) {
        return Err(UniqueViolation("email"));
      }
      if persona.areaId !in db.areas {
        return Err(ForeignKeyViolation);
      }
      var next := SeqAfter(db.personaSeq, persona.id);
      PutKeepsConstraints(db.personas, db.areas, db.personaSeq, next, persona);
      db.personas, db.personaSeq := db.personas[persona.id := StoredRow(persona)], next;
      return Ok(persona);
    }

    /** `db.Delete(&model.Persona{}, id)`: soft delete; afterwards neither the id nor the
        person's email finds the row. */
    method Delete(id: nat) returns (err: Option<Error>)
      requires db.Valid()
      modifies db
      ensures db.Valid()
      ensures db.areas == old(db.areas) && db.areaSeq == old(db.areaSeq)
      ensures db.personaSeq == old(db.personaSeq) && db.fault == old(db.fault) && db.lookupFault == old(db.lookupFault)
      ensures old(db.fault).Some? ==> err == Some(Unavailable(old(db.fault).value)) && db.personas == old(db.personas)
      ensures old(db.fault).None? ==> err == None && db.personas == SoftDelete(old(db.personas), id)
      ensures old(db.fault).None? && id in old(db.personas) ==> GetByID(id) == Err(RecordNotFound)
      ensures old(db.fault).None? && old(db.lookupFault).None? && id in old(db.personas) ==>
        GetByEmail(old(db.personas)[id].value.email) == Err(RecordNotFound)
    {
      if db.fault.Some? {
        return Some(Unavailable(db.fault.value));
      }
      if id in db.personas {
        DeletedPersonaLeavesEmailLookup(db.personas, id, db.personaSeq);
      }
      db.personas := SoftDelete(db.personas, id);
      return None;
    }
  }
}
