/** backend/internal/handler/area_handler.go. Each handler is a chain of early returns
    that ends in one `c.JSON` write; here each is a function from the request's parts
    (raw path id, bound body) and the service's answer to the response. The service is
    passed as a function value: the handler calls it only on the paths where the response
    depends on it. */
module AreaHandler {
  import opened Wrappers
  import opened Model
  import opened Errors
  import opened Http

  /** POST /areas: a body that does not bind is 400 "Datos inválidos"; any service error
      is 500; otherwise 201 with the created record, id included. */
  function Create(body: Binding<Area>, create: Area -> Result<Area, Error>): (resp: Response)
    ensures !body.Bound? ==>
      resp == Response(StatusBadRequest, Failure("Datos inválidos", Some(BindingDetails(body))))
    ensures body.Bound? && create(body.value).Err? ==>
      resp == Response(StatusInternalServerError, Failure("Error al crear el área", Some(Text(create(body.value).error))))
    ensures resp.status == StatusCreated <==> body.Bound? && create(body.value).Ok?
    ensures resp.status == StatusCreated ==>
      resp.body == Success(Some("Área creada exitosamente"), Some(AreaRecord(create(body.value).value)))
  {
    if !body.Bound? then
      Response(StatusBadRequest, Failure("Datos inválidos", Some(BindingDetails(body))))
    else
      match create(body.value)
      case Err(e) => Response(StatusInternalServerError, Failure("Error al crear el área", Some(Text(e))))
      case Ok(created) => Response(StatusCreated, Success(Some("Área creada exitosamente"), Some(AreaRecord(created))))
  }

  /** GET /areas: 500 on any error, else 200 with the list (an empty list is 200 too). */
  function GetAll(outcome: Result<seq<Area>, Error>): (resp: Response)
    ensures resp.status == StatusOK <==> outcome.Ok?
    ensures outcome.Ok? ==> resp.body == Success(None, Some(AreaList(outcome.value)))
    ensures outcome.Err? ==> resp == Response(StatusInternalServerError, Failure("Error al obtener las áreas", None))
  {
    match outcome
    case Err(_) => Response(StatusInternalServerError, Failure("Error al obtener las áreas", None))
    case Ok(areas) => Response(StatusOK, Success(None, Some(AreaList(areas))))
  }

  /** GET /areas/:id: a bad id is 400 without a service call; any service error is 404. */
  function GetByID(rawId: string, lookup: nat -> Result<Area, Error>): (resp: Response)
    ensures ParseUint32(rawId).None? ==> resp == BadId
    ensures ParseUint32(rawId).Some? ==>
      var id := ParseUint32(rawId).value;
      && (resp.status == StatusNotFound <==> lookup(id).Err?)
      && (lookup(id).Ok? ==> resp == Response(StatusOK, Success(None, Some(AreaRecord(lookup(id).value)))))
    ensures resp.status in {StatusOK, StatusBadRequest, StatusNotFound}
  {
    match ParseUint32(rawId)
    case None => BadId
    case Some(id) =>
      match lookup(id)
      case Err(_) => Response(StatusNotFound, Failure("Área no encontrada", None))
      case Ok(area) => Response(StatusOK, Success(None, Some(AreaRecord(area))))
  }

  /** PUT /areas/:id: the id is checked before the body; every service error, not-found
      included, is 400; success is 200 echoing the record as saved. */
  function Update(rawId: string, body: Binding<Area>, update: (nat, Area) -> Result<Area, Error>): (resp: Response)
    ensures ParseUint32(rawId).None? ==> resp == BadId
    ensures ParseUint32(rawId).Some? && !body.Bound? ==>
      resp == Response(StatusBadRequest, Failure("Datos inválidos", Some(BindingDetails(body))))
    ensures resp.status == StatusOK <==>
      ParseUint32(rawId).Some? && body.Bound? && update(ParseUint32(rawId).value, body.value).Ok?
    ensures resp.status == StatusOK ==>
      resp.body == Success(Some("Área actualizada exitosamente"),
                           Some(AreaRecord(update(ParseUint32(rawId).value, body.value).value)))
    ensures resp.status != StatusOK ==> resp.status == StatusBadRequest
  {
    match ParseUint32(rawId)
    case None => BadId
    case Some(id) =>
      if !body.Bound? then
        Response(StatusBadRequest, Failure("Datos inválidos", Some(BindingDetails(body))))
      else
        match update(id, body.value)
        case Err(e) => Response(StatusBadRequest, Failure("Error al actualizar el área", Some(Text(e))))
        case Ok(saved) => Response(StatusOK, Success(Some("Área actualizada exitosamente"), Some(AreaRecord(saved))))
  }

  /** DELETE /areas/:id: a bad id is 400; any service error is 404; success is 200 with
      a message and no data. */
  function Delete(rawId: string, delete: nat -> Option<Error>): (resp: Response)
    ensures ParseUint32(rawId).None? ==> resp == BadId
    ensures ParseUint32(rawId).Some? ==>
      var id := ParseUint32(rawId).value;
      && (delete(id).Some? ==>
            resp == Response(StatusNotFound, Failure("Error al eliminar el área", Some(Text(delete(id).value)))))
      && (delete(id).None? ==> resp == Response(StatusOK, Success(Some("Área eliminada exitosamente"), None)))
    ensures resp.body.Success? ==> resp.body.data.None?
  {
    match ParseUint32(rawId)
    case None => BadId
    case Some(id) =>
      match delete(id)
      case Some(e) => Response(StatusNotFound, Failure("Error al eliminar el área", Some(Text(e))))
      case None => Response(StatusOK, Success(Some("Área eliminada exitosamente"), None))
  }

  /** GET /areas/conteo: 500 on error, else 200 with the rows exactly as the service gave
      them. */
  function GetAreasConConteo(outcome: Result<seq<AreaConConteo>, Error>): (resp: Response)
    ensures resp.status == StatusOK <==> outcome.Ok?
    ensures outcome.Ok? ==> resp.body == Success(None, Some(ConteoList(outcome.value)))
    ensures outcome.Err? ==>
      resp == Response(StatusInternalServerError, Failure("Error al obtener las áreas con conteo", None))
  {
    match outcome
    case Err(_) => Response(StatusInternalServerError, Failure("Error al obtener las áreas con conteo", None))
    case Ok(rows) => Response(StatusOK, Success(None, Some(ConteoList(rows))))
  }
}
