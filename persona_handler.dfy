/** backend/internal/handler/persona_handler.go, as functions from the request's parts
    and the service's answer to the response (see AreaHandler). Unlike the area routes,
    a failed create is 400, not 500. */
module PersonaHandler {
  import opened Wrappers
  import opened Model
  import opened Errors
  import opened Http

  /** POST /personas: a body that does not bind is 400 and the service is not called; a
      service error is 400; success is 201 with the created record. */
  function Create(body: Binding<Persona>, create: Persona -> Result<Persona, Error>): (resp: Response)
    ensures !body.Bound? ==>
      resp == Response(StatusBadRequest, Failure("Datos inválidos", Some(BindingDetails(body))))
    ensures body.Bound? && create(body.value).Err? ==>
      resp == Response(StatusBadRequest, Failure("Error al registrar la persona", Some(Text(create(body.value).error))))
    ensures resp.status == StatusCreated <==> body.Bound? && create(body.value).Ok?
    ensures resp.status == StatusCreated ==>
      resp.body == Success(Some("Persona registrada exitosamente"), Some(PersonaRecord(create(body.value).value)))
    ensures resp.status != StatusCreated ==> resp.status == StatusBadRequest
  {
    if !body.Bound? then
      Response(StatusBadRequest, Failure("Datos inválidos", Some(BindingDetails(body))))
    else
      match create(body.value)
      case Err(e) => Response(StatusBadRequest, Failure("Error al registrar la persona", Some(Text(e))))
      case Ok(created) =>
        Response(StatusCreated, Success(Some("Persona registrada exitosamente"), Some(PersonaRecord(created))))
  }

  /** GET /personas: 500 on error, else 200 with the list. */
  function GetAll(outcome: Result<seq<Persona>, Error>): (resp: Response)
    ensures resp.status == StatusOK <==> outcome.Ok?
    ensures outcome.Ok? ==> resp.body == Success(None, Some(PersonaList(outcome.value)))
    ensures outcome.Err? ==> resp == Response(StatusInternalServerError, Failure("Error al obtener las personas", None))
  {
    match outcome
    case Err(_) => Response(StatusInternalServerError, Failure("Error al obtener las personas", None))
    case Ok(personas) => Response(StatusOK, Success(None, Some(PersonaList(personas))))
  }

  /** GET /personas/:id: a bad id is 400 without a service call; any error is 404. */
  function GetByID(rawId: string, lookup: nat -> Result<Persona, Error>): (resp: Response)
    ensures ParseUint32(rawId).None? ==> resp == BadId
    ensures ParseUint32(rawId).Some? ==>
      var id := ParseUint32(rawId).value;
      && (resp.status == StatusNotFound <==> lookup(id).Err?)
      && (lookup(id).Ok? ==> resp == Response(StatusOK, Success(None, Some(PersonaRecord(lookup(id).value)))))
    ensures resp.status in {StatusOK, StatusBadRequest, StatusNotFound}
  {
    match ParseUint32(rawId)
    case None => BadId
    case Some(id) =>
      match lookup(id)
      case Err(_) => Response(StatusNotFound, Failure("Persona no encontrada", None))
      case Ok(p) => Response(StatusOK, Success(None, Some(PersonaRecord(p))))
  }

  /** GET /personas/email/:email: the path value goes to the service as it is; any error
      is 404. */
  function GetByEmail(email: string, lookup: string -> Result<Persona, Error>): (resp: Response)
    ensures resp.status == StatusNotFound <==> lookup(email).Err?
    ensures lookup(email).Err? ==> resp.body == Failure("Persona no encontrada", None)
    ensures lookup(email).Ok? ==> resp == Response(StatusOK, Success(None, Some(PersonaRecord(lookup(email).value))))
  {
    match lookup(email)
    case Err(_) => Response(StatusNotFound, Failure("Persona no encontrada", None))
    case Ok(p) => Response(StatusOK, Success(None, Some(PersonaRecord(p))))
  }

  /** PUT /personas/:id: id first, then body; any service error is 400; success is 200
      echoing the record as saved (with the path id). */
  function Update(rawId: string, body: Binding<Persona>, update: (nat, Persona) -> Result<Persona, Error>): (resp: Response)
    ensures ParseUint32(rawId).None? ==> resp == BadId
    ensures ParseUint32(rawId).Some? && !body.Bound? ==>
      resp == Response(StatusBadRequest, Failure("Datos inválidos", Some(BindingDetails(body))))
    ensures resp.status == StatusOK <==>
      ParseUint32(rawId).Some? && body.Bound? && update(ParseUint32(rawId).value, body.value).Ok?
    ensures resp.status == StatusOK ==>
      resp.body == Success(Some("Persona actualizada exitosamente"),
                           Some(PersonaRecord(update(ParseUint32(rawId).value, body.value).value)))
    ensures resp.status != StatusOK ==> resp.status == StatusBadRequest
  {
    match ParseUint32(rawId)
    case None => BadId
    case Some(id) =>
      if !body.Bound? then
        Response(StatusBadRequest, Failure("Datos inválidos", Some(BindingDetails(body))))
      else
        match update(id, body.value)
        case Err(e) => Response(StatusBadRequest, Failure("Error al actualizar la persona", Some(Text(e))))
        case Ok(saved) => Response(StatusOK, Success(Some("Persona actualizada exitosamente"), Some(PersonaRecord(saved))))
  }

  /** DELETE /personas/:id: a bad id is 400; any service error is 404. */
  function Delete(rawId: string, delete: nat -> Option<Error>): (resp: Response)
    ensures ParseUint32(rawId).None? ==> resp == BadId
    ensures ParseUint32(rawId).Some? ==>
      var id := ParseUint32(rawId).value;
      && (delete(id).Some? ==>
            resp == Response(StatusNotFound, Failure("Error al eliminar la persona", Some(Text(delete(id).value)))))
      && (delete(id).None? ==> resp == Response(StatusOK, Success(Some("Persona eliminada exitosamente"), None)))
  {
    match ParseUint32(rawId)
    case None => BadId
    case Some(id) =>
      match delete(id)
      case Some(e) => Response(StatusNotFound, Failure("Error al eliminar la persona", Some(Text(e))))
      case None => Response(StatusOK, Success(Some("Persona eliminada exitosamente"), None))
  }
}
