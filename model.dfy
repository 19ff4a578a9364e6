/** The records of backend/internal/model: `Area`, `Persona` and the `AreaConConteo`
    projection, the column limits their GORM tags declare, and what Gin's
    `ShouldBindJSON` accepts of a decoded body under their `binding` tags. */
module Model {
  import opened Wrappers

  /** Column widths from the `gorm:"type:varchar(n)"` tags. */
  const AreaNombreMax: nat := 100
  const PersonaNombreMax: nat := 200
  const PersonaEmailMax: nat := 200

  /** An area. `id` is the primary key of the embedded `gorm.Model`; its timestamps are
      not modelled. `descripcion` is a `text` column with no bound. */
  datatype Area = Area(id: nat, nombre: string, descripcion: string)
  {
    /** `Area.TableName()`. */
    function TableName(): (t: string)
      ensures t == "areas"
    {
      "areas"
    }
  }

  /** A person. `area` is the association GORM fills in by `Preload("Area")`; it is
      `None` (omitted from the JSON) when nothing was attached. */
  datatype Persona = Persona(id: nat, nombre: string, email: string, areaId: nat, area: Option<Area>)
  {
    /** `Persona.TableName()`. */
    function TableName(): (t: string)
      ensures t == "personas"
    {
      "personas"
    }
  }

  /** One row of the `GET /areas/conteo` result: an area and how many persons point at it. */
  datatype AreaConConteo = AreaConConteo(id: nat, nombre: string, descripcion: string, personas: nat)

  /** What the database columns accept of an area (`varchar(100)`; `text` is unbounded). */
  predicate AreaFitsColumns(a: Area)
  {
    |a.nombre| <= AreaNombreMax
  }

  /** What the database columns accept of a person (`varchar(200)` twice). */
  predicate PersonaFitsColumns(p: Persona)
  {
    |p.nombre| <= PersonaNombreMax && |p.email| <= PersonaEmailMax
  }

  /** Sum of the `personas` counts of a list of rows. The frontend's
      `areas.reduce((sum, area) => sum + area.personas, 0)` is this sum. */
  function SumPersonas(rows: seq<AreaConConteo>): (total: nat)
    ensures rows == [] ==> total == 0
    ensures forall i :: 0 <= i < |rows| ==> rows[i].personas <= total
  {
    if rows == [] then 0 else rows[0].personas + SumPersonas(rows[1..])
  }

  /** The sum distributes over concatenation. */
  lemma {:induction false} SumPersonasAppend(xs: seq<AreaConConteo>, ys: seq<AreaConConteo>)
    ensures SumPersonas(xs + ys) == SumPersonas(xs) + SumPersonas(ys)
  {
    if xs == [] {
      assert xs + ys == ys;
    } else {
      assert (xs + ys)[1..] == xs[1..] + ys;
      SumPersonasAppend(xs[1..], ys);
    }
  }

  // ---------------------------------------------------------------------------
  // Body binding (`c.ShouldBindJSON`)
  // ---------------------------------------------------------------------------

  /** One failed `binding` tag, as the validator reports it. */
  datatype FieldError = FieldError(namespace: string, field: string, tag: string)

  /** Outcome of binding a request body: the bound record, or the reason it was refused. */
  datatype Binding<+T> =
    | Bound(value: T)
    | MalformedJson(details: string)          // the JSON decoder's own error text
    | Invalid(errors: seq<FieldError>)        // one entry per failed `binding` tag

  /** The validator's text for one field error. */
  function FieldErrorText(e: FieldError): string
  {
    "Key: '" + e.namespace + "' Error:Field validation for '" + e.field + "' failed on the '" + e.tag + "' tag"
  }

  /** The `details` string of a failed binding: the decoder's text, or the validator's
      field errors joined by newlines. */
  function BindingDetails<T>(b: Binding<T>): string
  {
    match b
    case Bound(_) => ""
    case MalformedJson(d) => d
    case Invalid(es) => JoinFieldErrors(es)
  }

  function JoinFieldErrors(es: seq<FieldError>): string
  {
    if es == [] then ""
    else if |es| == 1 then FieldErrorText(es[0])
    else FieldErrorText(es[0]) + "\n" + JoinFieldErrors(es[1..])
  }

  /** `required` failures of an area (namespace prefix `prefix`, "Area" at top level). */
  function AreaFieldErrors(prefix: string, a: Area): (es: seq<FieldError>)
    ensures es == [] <==> a.nombre != ""
  {
    if a.nombre == "" then [FieldError(prefix + ".Nombre", "Nombre", "required")] else []
  }

  /** Bind an area body. `decoded` is what `encoding/json` made of the request body (a
      decoding failure carries the decoder's text); the only `binding` tag on `Area` is
      `required` on `Nombre`. */
  function BindArea(decoded: Result<Area, string>): (b: Binding<Area>)
    ensures b.Bound? <==> decoded.Ok? && decoded.value.nombre != ""
    ensures b.Bound? ==> b.value == decoded.value
    ensures decoded.Err? ==> b == MalformedJson(decoded.error)
  {
    match decoded
    case Err(msg) => MalformedJson(msg)
    case Ok(a) =>
      var es := AreaFieldErrors("Area", a);
      if es == [] then Bound(a) else Invalid(es)
  }

  /** Every `binding` failure of a person: `required` on `Nombre`, `required,email` on
      `Email` (the `email` rule is tested only on a non-empty value), `required` on `AreaID`
      (zero counts as missing), and, when an `Area` is nested in the body, its own
      `required` on `Nombre`. `isEmail` stands for the validator's `email` rule. */
  function PersonaFieldErrors(p: Persona, isEmail: string -> bool): (es: seq<FieldError>)
    ensures es == [] <==>
      p.nombre != "" && p.email != "" && isEmail(p.email) && p.areaId != 0 &&
      (p.area.Some? ==> p.area.value.nombre != "")
  {
    (if p.nombre == "" then [FieldError("Persona.Nombre", "Nombre", "required")] else []) +
    (if p.email == "" then [FieldError("Persona.Email", "Email", "required")]
     else if !isEmail(p.email) then [FieldError("Persona.Email", "Email", "email")]
     else []) +
    (if p.areaId == 0 then [FieldError("Persona.AreaID", "AreaID", "required")] else []) +
    (if p.area.Some? then AreaFieldErrors("Persona.Area", p.area.value) else [])
  }

  /** Bind a person body. */
  function BindPersona(decoded: Result<Persona, string>, isEmail: string -> bool): (b: Binding<Persona>)
    ensures b.Bound? <==> decoded.Ok? && PersonaFieldErrors(decoded.value, isEmail) == []
    ensures b.Bound? ==> b.value == decoded.value && b.value.nombre != "" && b.value.email != ""
                         && isEmail(b.value.email) && b.value.areaId != 0
    ensures decoded.Err? ==> b == MalformedJson(decoded.error)
  {
    match decoded
    case Err(msg) => MalformedJson(msg)
    case Ok(p) =>
      var es := PersonaFieldErrors(p, isEmail);
      if es == [] then Bound(p) else Invalid(es)
  }
}
