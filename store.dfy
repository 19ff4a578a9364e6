/** The database both repositories share, reduced to what GORM and Postgres make
    observable: two tables of rows keyed by primary key, each row carrying the soft-delete
    mark of `gorm.Model.DeletedAt`, the two id sequences, and the constraints the GORM tags
    declare. Reads see only rows that are not marked deleted. */
module Store {
  import opened Wrappers
  import opened Model
  import opened Errors

  /** A stored row; `deleted` is `DeletedAt IS NOT NULL`. */
  datatype Row<T> = Row(value: T, deleted: bool)

  type Table<T> = map<nat, Row<T>>

  /** A row the default (soft-delete aware) scope can see. */
  predicate Live<T>(t: Table<T>, id: nat)
  {
    id in t && !t[id].deleted
  }

  /** `UPDATE ... SET deleted_at = now() WHERE id = ? AND deleted_at IS NULL`. */
  function SoftDelete<T>(t: Table<T>, id: nat): (t': Table<T>)
    ensures t'.Keys == t.Keys
    ensures forall k :: k in t ==> t'[k].value == t[k].value
    ensures forall k :: k in t && k != id ==> t'[k] == t[k]
    ensures !Live(t', id)
  {
    if Live(t, id) then t[id := Row(t[id].value, true)] else t
  }

  /** Soft delete removes exactly one id from the visible rows. */
  lemma SoftDeleteHidesOnlyThatRow<T>(t: Table<T>, id: nat)
    ensures forall k :: Live(SoftDelete(t, id), k) <==> Live(t, k) && k != id
  {
  }

  // ---------------------------------------------------------------------------
  // Table invariants (the columns' constraints)
  // ---------------------------------------------------------------------------

  /** Some row other than `except` already holds `nombre` (the unique index covers
      soft-deleted rows too). */
  predicate NombreTaken(t: Table<Area>, nombre: string, except: nat)
  {
    exists k :: k in t && k != except && t[k].value.nombre == nombre
  }

  /** Some row other than `except` already holds `email`. */
  predicate EmailHeld(t: Table<Persona>, email: string, except: nat)
  {
    exists k :: k in t && k != except && t[k].value.email == email
  }

  /** Every row sits under its own id. */
  predicate AreasKeyed(t: Table<Area>)
  {
    forall k :: k in t ==> t[k].value.id == k
  }

  predicate PersonasKeyed(t: Table<Persona>)
  {
    forall k :: k in t ==> t[k].value.id == k
  }

  /** The `areas` table: ids drawn below the sequence, `varchar(100)`, `unique`. */
  predicate AreasOk(t: Table<Area>, next: nat)
  {
    && AreasKeyed(t)
    && (forall k :: k in t ==> 0 < k < next && AreaFitsColumns(t[k].value))
    && (forall j, k :: j in t && k in t && j != k ==> t[j].value.nombre != t[k].value.nombre)
  }

  /** The `personas` table: ids below the sequence, no association stored in the row,
      `varchar(200)` columns, `unique` email, and `area_id` referencing a row of `areas`
      (the foreign key refers to the physical row, deleted or not). */
  predicate PersonasOk(t: Table<Persona>, areas: Table<Area>, next: nat)
  {
    && PersonasKeyed(t)
    && (forall k :: k in t ==>
          0 < k < next && t[k].value.area.None? && PersonaFitsColumns(t[k].value) && t[k].value.areaId in areas)
    && (forall j, k :: j in t && k in t && j != k ==> t[j].value.email != t[k].value.email)
  }

  // ---------------------------------------------------------------------------
  // Areas: the visible list
  // ---------------------------------------------------------------------------

  /** The visible areas with id in 1..n, in ascending id order (`SELECT * FROM areas
      WHERE deleted_at IS NULL`). */
  function LiveAreas(t: Table<Area>, n: nat): seq<Area>
    decreases n
  {
    if n == 0 then [] else LiveAreas(t, n - 1) + (if Live(t, n) then [t[n].value] else [])
  }

  /** The list holds exactly the visible rows with id up to n. */
  lemma {:induction false} LiveAreasMembers(t: Table<Area>, n: nat)
    requires AreasKeyed(t)
    ensures forall a :: a in LiveAreas(t, n) <==> 0 < a.id <= n && Live(t, a.id) && t[a.id].value == a
  {
    if n > 0 {
      LiveAreasMembers(t, n - 1);
    }
  }

  /** ... in strictly ascending id order, so no area is listed twice. */
  lemma {:induction false} LiveAreasAscending(t: Table<Area>, n: nat)
    requires AreasKeyed(t)
    ensures forall i, j :: 0 <= i < j < |LiveAreas(t, n)| ==> LiveAreas(t, n)[i].id < LiveAreas(t, n)[j].id
  {
    if n > 0 {
      LiveAreasAscending(t, n - 1);
      LiveAreasMembers(t, n - 1);
      var prev := LiveAreas(t, n - 1);
      assert forall i :: 0 <= i < |prev| ==> prev[i] in prev && prev[i].id <= n - 1;
    }
  }

  /** Soft-deleting one area takes exactly that area out of the list. */
  lemma DeletedAreaLeavesList(t: Table<Area>, id: nat, n: nat)
    requires AreasKeyed(t)
    ensures forall a :: a in LiveAreas(SoftDelete(t, id), n) <==> a in LiveAreas(t, n) && a.id != id
  {
    LiveAreasMembers(t, n);
    LiveAreasMembers(SoftDelete(t, id), n);
  }

  // ---------------------------------------------------------------------------
  // Persons: the visible list with the Area association, and the email lookup
  // ---------------------------------------------------------------------------

  /** `Preload("Area")`: attach the visible area the person's `area_id` names, if any
      (the preload query applies the soft-delete scope too). */
  function Attach(areas: Table<Area>, p: Persona): (q: Persona)
    ensures q.id == p.id && q.nombre == p.nombre && q.email == p.email && q.areaId == p.areaId
    ensures q.area.Some? <==> Live(areas, p.areaId)
    ensures q.area.Some? ==> q.area.value == areas[p.areaId].value
  {
    p.(area := if Live(areas, p.areaId) then Some(areas[p.areaId].value) else None)
  }

  /** The visible persons with id in 1..n, ascending, each with its area attached. */
  function LivePersonas(t: Table<Persona>, areas: Table<Area>, n: nat): seq<Persona>
    decreases n
  {
    if n == 0 then []
    else LivePersonas(t, areas, n - 1) + (if Live(t, n) then [Attach(areas, t[n].value)] else [])
  }

  lemma {:induction false} LivePersonasMembers(t: Table<Persona>, areas: Table<Area>, n: nat)
    requires PersonasKeyed(t)
    ensures forall p :: p in LivePersonas(t, areas, n) <==>
      0 < p.id <= n && Live(t, p.id) && p == Attach(areas, t[p.id].value)
  {
    if n > 0 {
      LivePersonasMembers(t, areas, n - 1);
    }
  }

  /** ... in strictly ascending id order, so no person is listed twice. */
  lemma {:induction false} LivePersonasAscending(t: Table<Persona>, areas: Table<Area>, n: nat)
    requires PersonasKeyed(t)
    ensures forall i, j :: 0 <= i < j < |LivePersonas(t, areas, n)| ==>
      LivePersonas(t, areas, n)[i].id < LivePersonas(t, areas, n)[j].id
  {
    if n > 0 {
      LivePersonasAscending(t, areas, n - 1);
      LivePersonasMembers(t, areas, n - 1);
      var prev := LivePersonas(t, areas, n - 1);
      assert forall i :: 0 <= i < |prev| ==> prev[i] in prev && prev[i].id <= n - 1;
    }
  }

  /** A visible row whose email is exactly `email`. */
  predicate HoldsEmail(t: Table<Persona>, k: nat, email: string)
  {
    Live(t, k) && t[k].value.email == email
  }

  /** `Where("email = ?", email).First(&p)`: the visible row with that email and the
      lowest id in 1..n (First orders by primary key), without association. */
  function FirstByEmail(t: Table<Persona>, email: string, n: nat): (r: Option<Persona>)
    requires PersonasKeyed(t)
    ensures r.Some? ==> 0 < r.value.id <= n && HoldsEmail(t, r.value.id, email) && r.value == t[r.value.id].value
    ensures r.Some? ==> forall k :: 0 < k < r.value.id ==> !HoldsEmail(t, k, email)
    ensures r.None? <==> forall k :: 0 < k <= n ==> !HoldsEmail(t, k, email)
    decreases n
  {
    if n == 0 then None
    else
      match FirstByEmail(t, email, n - 1)
      case Some(p) => Some(p)
      case None => if HoldsEmail(t, n, email) then Some(t[n].value) else None
  }

  /** Once the row holding an email is soft-deleted, looking that email up misses:
      emails are unique, so no other row can answer. */
  lemma DeletedPersonaLeavesEmailLookup(t: Table<Persona>, id: nat, n: nat)
    requires PersonasKeyed(t)
    requires forall j, k :: j in t && k in t && j != k ==> t[j].value.email != t[k].value.email
    requires id in t
    ensures FirstByEmail(SoftDelete(t, id), t[id].value.email, n).None?
  {
    var t' := SoftDelete(t, id);
    var e := t[id].value.email;
    forall k | 0 < k <= n ensures !HoldsEmail(t', k, e) {
      if k != id && k in t {
        assert t'[k] == t[k];
      }
    }
  }

  // ---------------------------------------------------------------------------
  // Areas with their person counts (GetAreasConConteo)
  // ---------------------------------------------------------------------------

  /** Ids of the visible persons whose `area_id` is `areaId`: the rows the
      `LEFT JOIN personas ON personas.area_id = areas.id AND personas.deleted_at IS NULL`
      matches for that area. */
  function Referencing(t: Table<Persona>, areaId: nat): set<nat>
  {
    set k | k in t && !t[k].deleted && t[k].value.areaId == areaId
  }

  /** `COUNT(personas.id)` for one area: 0 when the join matched nothing (NULL ids are
      not counted). */
  function CountPersonas(t: Table<Persona>, areaId: nat): nat
  {
    |Referencing(t, areaId)|
  }

  lemma CountZeroIff(t: Table<Persona>, areaId: nat)
    ensures CountPersonas(t, areaId) == 0 <==>
      forall k :: Live(t, k) ==> t[k].value.areaId != areaId
  {
    if exists k :: Live(t, k) && t[k].value.areaId == areaId {
      var k :| Live(t, k) && t[k].value.areaId == areaId;
      assert k in Referencing(t, areaId);
    }
  }

  /** The `Select("areas.id, areas.nombre, areas.descripcion, COUNT(personas.id)")`
      projection, one row per listed area, in the same order. */
  function WithCounts(areas: seq<Area>, t: Table<Persona>): (rows: seq<AreaConConteo>)
    ensures |rows| == |areas|
    ensures forall i :: 0 <= i < |areas| ==>
      rows[i] == AreaConConteo(areas[i].id, areas[i].nombre, areas[i].descripcion, CountPersonas(t, areas[i].id))
  {
    if areas == [] then []
    else [AreaConConteo(areas[0].id, areas[0].nombre, areas[0].descripcion, CountPersonas(t, areas[0].id))]
         + WithCounts(areas[1..], t)
  }

  lemma WithCountsAppend(xs: seq<Area>, ys: seq<Area>, t: Table<Persona>)
    ensures WithCounts(xs + ys, t) == WithCounts(xs, t) + WithCounts(ys, t)
  {
    var l, r := WithCounts(xs + ys, t), WithCounts(xs, t) + WithCounts(ys, t);
    assert |l| == |r|;
    forall i | 0 <= i < |l| ensures l[i] == r[i] {
      if i < |xs| { assert (xs + ys)[i] == xs[i]; } else { assert (xs + ys)[i] == ys[i - |xs|]; }
    }
  }

  /** The `GROUP BY areas.id` result over the visible areas with id up to n. */
  function Conteo(areas: Table<Area>, t: Table<Persona>, n: nat): seq<AreaConConteo>
  {
    WithCounts(LiveAreas(areas, n), t)
  }

  /** Every row of the result is a visible area with its exact count, and every visible
      area with id up to n has a row (the LEFT JOIN keeps areas nobody references). */
  lemma ConteoRows(areas: Table<Area>, t: Table<Persona>, n: nat)
    requires AreasKeyed(areas)
    ensures forall i :: 0 <= i < |Conteo(areas, t, n)| ==>
      var row := Conteo(areas, t, n)[i];
      && 0 < row.id <= n && Live(areas, row.id)
      && row.nombre == areas[row.id].value.nombre
      && row.descripcion == areas[row.id].value.descripcion
      && row.personas == CountPersonas(t, row.id)
    ensures forall id :: 0 < id <= n && Live(areas, id) ==>
      exists i :: 0 <= i < |Conteo(areas, t, n)| && Conteo(areas, t, n)[i].id == id
    ensures forall i, j :: 0 <= i < j < |Conteo(areas, t, n)| ==> Conteo(areas, t, n)[i].id < Conteo(areas, t, n)[j].id
  {
    ConteoRowsAreVisible(areas, t, n);
    ConteoCoversVisible(areas, t, n);
    var xs := LiveAreas(areas, n);
    LiveAreasAscending(areas, n);
    assert forall i :: 0 <= i < |xs| ==> Conteo(areas, t, n)[i].id == xs[i].id;
  }

  lemma ConteoRowsAreVisible(areas: Table<Area>, t: Table<Persona>, n: nat)
    requires AreasKeyed(areas)
    ensures forall i :: 0 <= i < |Conteo(areas, t, n)| ==>
      var row := Conteo(areas, t, n)[i];
      && 0 < row.id <= n && Live(areas, row.id)
      && row.nombre == areas[row.id].value.nombre
      && row.descripcion == areas[row.id].value.descripcion
      && row.personas == CountPersonas(t, row.id)
  {
    var xs := LiveAreas(areas, n);
    LiveAreasMembers(areas, n);
    forall i | 0 <= i < |xs| ensures 0 < xs[i].id <= n && Live(areas, xs[i].id) && areas[xs[i].id].value == xs[i] {
      assert xs[i] in xs;
    }
  }

  lemma ConteoCoversVisible(areas: Table<Area>, t: Table<Persona>, n: nat)
    requires AreasKeyed(areas)
    ensures forall id :: 0 < id <= n && Live(areas, id) ==>
      exists i :: 0 <= i < |Conteo(areas, t, n)| && Conteo(areas, t, n)[i].id == id
  {
    var xs := LiveAreas(areas, n);
    var rows := Conteo(areas, t, n);
    LiveAreasMembers(areas, n);
    forall id | 0 < id <= n && Live(areas, id)
      ensures exists i :: 0 <= i < |rows| && rows[i].id == id
    {
      assert areas[id].value in xs;
      var i :| 0 <= i < |xs| && xs[i] == areas[id].value;
      assert rows[i].id == id;
    }
  }

  /** Visible persons whose `area_id` names a visible area with id in 1..n. */
  function ReferencingLiveAreas(t: Table<Persona>, areas: Table<Area>, n: nat): set<nat>
  {
    set k | k in t && !t[k].deleted && 0 < t[k].value.areaId <= n && Live(areas, t[k].value.areaId)
  }

  /** Stepping the bound from n - 1 to n adds the persons of area n, if it is visible. */
  lemma ReferencingStep(t: Table<Persona>, areas: Table<Area>, n: nat)
    requires n > 0
    ensures ReferencingLiveAreas(t, areas, n) ==
      ReferencingLiveAreas(t, areas, n - 1) + (if Live(areas, n) then Referencing(t, n) else {})
    ensures ReferencingLiveAreas(t, areas, n - 1) * (if Live(areas, n) then Referencing(t, n) else {}) == {}
  {
  }

  lemma DisjointUnionSize(a: set<nat>, b: set<nat>)
    requires a * b == {}
    ensures |a + b| == |a| + |b|
  {
  }

  /** The counts add up: summing `personas` over the result gives the number of visible
      persons that reference a visible area. Persons of a deleted area are in no row. */
  lemma {:induction false} SumOfCounts(areas: Table<Area>, t: Table<Persona>, n: nat)
    requires AreasKeyed(areas)
    ensures SumPersonas(Conteo(areas, t, n)) == |ReferencingLiveAreas(t, areas, n)|
  {
    if n == 0 {
      assert ReferencingLiveAreas(t, areas, 0) == {};
    } else {
      SumOfCounts(areas, t, n - 1);
      ConteoStep(areas, t, n);
      ReferencingSize(t, areas, n);
    }
  }

  /** Raising the bound from n - 1 to n adds the count of area n, if it is visible. */
  lemma ConteoStep(areas: Table<Area>, t: Table<Persona>, n: nat)
    requires n > 0 && AreasKeyed(areas)
    ensures SumPersonas(Conteo(areas, t, n)) ==
      SumPersonas(Conteo(areas, t, n - 1)) + (if Live(areas, n) then CountPersonas(t, n) else 0)
  {
    var prev := LiveAreas(areas, n - 1);
    var last := if Live(areas, n) then [areas[n].value] else [];
    assert LiveAreas(areas, n) == prev + last;
    WithCountsAppend(prev, last, t);
    SumPersonasAppend(WithCounts(prev, t), WithCounts(last, t));
  }

  /** ... and the persons of area n, if it is visible. */
  lemma ReferencingSize(t: Table<Persona>, areas: Table<Area>, n: nat)
    requires n > 0
    ensures |ReferencingLiveAreas(t, areas, n)| ==
      |ReferencingLiveAreas(t, areas, n - 1)| + (if Live(areas, n) then CountPersonas(t, n) else 0)
  {
    var here := if Live(areas, n) then Referencing(t, n) else {};
    ReferencingStep(t, areas, n);
    DisjointUnionSize(ReferencingLiveAreas(t, areas, n - 1), here);
  }

  /** For a whole consistent table: the total over `Conteo` is the number of visible
      persons whose area is visible. */
  lemma TotalOfConteo(areas: Table<Area>, t: Table<Persona>, next: nat)
    requires AreasOk(areas, next)
    ensures SumPersonas(Conteo(areas, t, next)) ==
      |set k | k in t && !t[k].deleted && Live(areas, t[k].value.areaId)|
  {
    SumOfCounts(areas, t, next);
    assert ReferencingLiveAreas(t, areas, next) ==
      set k | k in t && !t[k].deleted && Live(areas, t[k].value.areaId);
  }

  /** The value of an id sequence after a row was inserted under an explicit `id`: moved
      past it when it was not already. */
  function SeqAfter(next: nat, id: nat): (next': nat)
    ensures id < next' && next <= next'
    ensures next' == next || next' == id + 1
  {
    if next <= id then id + 1 else next
  }

  // ---------------------------------------------------------------------------
  // The database object
  // ---------------------------------------------------------------------------

  /** The shared connection. `fault`, when set, is a failure the database reports to every
      call (a lost connection). `lookupFault`, when set, is a failure of the
      `WHERE email = ?` query alone (a statement timeout, say) that the connection survives:
      every other call still goes through. Both stand for the environment and nothing in
      the model sets them. */
  class Database {
    var areas: Table<Area>
    var personas: Table<Persona>
    var areaSeq: nat      // next value of the areas id sequence
    var personaSeq: nat   // next value of the personas id sequence
    var fault: Option<string>
    var lookupFault: Option<string>

    ghost predicate Valid()
      reads this
    {
      && 0 < areaSeq && 0 < personaSeq
      && AreasOk(areas, areaSeq)
      && PersonasOk(personas, areas, personaSeq)
    }

    /** A freshly migrated, empty database. */
    constructor ()
      ensures Valid()
      ensures areas == map[] && personas == map[] && areaSeq == 1 && personaSeq == 1
      ensures fault == None && lookupFault == None
    {
      areas, personas := map[], map[];
      areaSeq, personaSeq := 1, 1;
      fault, lookupFault := None, None;
    }
  }
}
