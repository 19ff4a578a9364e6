# Areas and persons registry, modelled in Dafny

The system keeps people (`Persona`) and the work areas (`Area`) they belong to. A Go
backend exposes a REST API under `/api/v1`: Gin handlers, domain services, and GORM
repositories over Postgres tables `areas` and `personas`. An Angular frontend has a
registration page and a results page that charts how many people each area has.

This project models that core one layer at a time:

- `wrappers.dfy`: `Option` and `Result`.
- `model.dfy` (module `Model`): the `Area`, `Persona` and `AreaConConteo` records, the
  column limits their GORM tags declare, and what Gin's `ShouldBindJSON` accepts under
  their `binding` tags. JSON decoding and the `email` rule are taken as given inputs.
- `errors.dfy` (module `Errors`): the storage errors and the three domain errors, with
  the domain errors' exact texts.
- `store.dfy` (module `Store`): the database. It is one class, `Store.Database`, with
  two tables (id → row with a `deleted` flag), two id sequences, a `fault` field for
  a failed connection, and a `lookupFault` field for a failure of the email lookup query
  alone. It also holds the soft-delete visibility rules, the id-ordered
  listings, the first-by-email lookup and the counting query behind `GetAreasConConteo`.
  `Database.Valid` states the database's invariants:
  - `nombre` of areas is unique over all rows, deleted ones included;
  - `email` of persons is unique over all rows, deleted ones included;
  - every `area_id` names a row of `areas`;
  - every value fits its `varchar` column;
  - every key is below its sequence.
- `area_repository.dfy` and `persona_repository.dfy`: the repositories.
  - Queries are functions over the database.
  - `Create`, `Update` (GORM's `Save`) and `Delete` are methods.
  - Each write states its whole new state, the id sequences included, and keeps `Valid`.
- `area_service.dfy` and `persona_service.dfy`: the services.
  - They do a lookup, then return early or write.
  - `gorm.ErrRecordNotFound` becomes the domain error; every other error passes through.
  - The email-uniqueness checks are modelled here.
- `http.dfy` (module `Http`): the response shape, and `strconv.ParseUint(s, 10, 32)`.
  The parser is written as Go's digit loop with its overflow check. It is proved equal
  to the plain decimal reading of the string, and proved to invert `Render`.
- `area_handler.dfy` and `persona_handler.dfy`: each Gin handler as a function from the
  raw path id, the binding outcome and the service (a function value) to one
  `(status, body)` response.
- `registro.dfy` (module `Registro`): the registration page.
  - ECMAScript `trim` and the white-space class `\s`.
  - The e-mail pattern `/^[^\s@]+@[^\s@]+\.[^\s@]+$/`, written twice: once as the
    checks a reader makes, once as the regular expression's own split into three runs.
    The two are proved equal.
  - The ordered validation cascade.
  - The component's signals as a class, whose methods are the submit, callback and
    change handlers.
- `resultados.dfy` (module `Resultados`): the results page's signals, chart series and
  total.

The database is sequential: one request at a time. Calls into code that is not visible
become parameters:
- what the JSON decoder made of the body;
- the validator's `email` rule;
- the outcome of the REST call;
- what `Number(value)` returns.

## Model

| member | source | states |
|---|---|---|
| Model.Area.TableName | backend/internal/model/area.go:15-17 | the table of areas is always "areas" |
| Model.Persona.TableName | backend/internal/model/persona.go:17-19 | the table of persons is always "personas" |
| Model.AreaFieldErrors | backend/internal/model/area.go:10 | the `required` tag on `Nombre` fails exactly when the name is empty |
| Model.BindArea | backend/internal/model/area.go:10-11 | an area body binds exactly when it decodes and has a non-empty name; the description is free; a decoding failure yields the decoder's text |
| Model.PersonaFieldErrors | backend/internal/model/persona.go:10-13 | no field error exactly when the name is non-empty, the email is non-empty and email-shaped, `area_id` is non-zero, and a nested area has a name |
| Model.BindingDetails | backend/internal/handler/area_handler.go:24-28 | the `details` text of a refused body: the decoder's text, or the validator's field errors joined by newlines |
| Model.BindPersona | backend/internal/model/persona.go:10-13 | a person body binds exactly when it decodes and passes every `binding` tag; the bound record is the decoded one |
| Model.SumPersonas | frontend/src/app/pages/resultados/resultados.component.ts:119 | the sum of the counts is 0 for no rows and bounds every row's count |
| Model.SumPersonasAppend | frontend/src/app/pages/resultados/resultados.component.ts:119 | the sum of the counts distributes over concatenation of row lists |
| Errors.Text | backend/internal/service/persona_service.go:31-79 | the `err.Error()` text of each error: the three domain texts exactly, the storage texts approximated |
| Store.SoftDelete | backend/internal/model/area.go:9 | a soft delete keeps every key and every stored value, changes no other row, and hides the row it marks |
| Store.SoftDeleteHidesOnlyThatRow | backend/internal/model/persona.go:9 | after a soft delete, exactly the rows that were visible, minus that id, are visible |
| Store.LiveAreas | backend/internal/repository/area_repository.go:29-33 | the visible areas with id up to a bound, in the id order the model fixes; its members and order are proved in `Store.LiveAreasMembers` and `Store.LiveAreasAscending` |
| Store.LiveAreasMembers | backend/internal/repository/area_repository.go:29-33 | the listing holds exactly the visible areas as stored |
| Store.LiveAreasAscending | backend/internal/repository/area_repository.go:29-33 | the listing is strictly ascending by id |
| Store.DeletedAreaLeavesList | backend/internal/repository/area_repository.go:45-47 | after the soft delete of an id, the listing holds the former listing minus that id |
| Store.Attach | backend/internal/repository/persona_repository.go:29-39 | `Preload("Area")` keeps every column and attaches an area exactly when the referenced area is visible, as stored |
| Store.LivePersonas | backend/internal/repository/persona_repository.go:29-33 | the visible persons with id up to a bound, each with its area attached, in the id order the model fixes; its members and order are proved in `Store.LivePersonasMembers` and `Store.LivePersonasAscending` |
| Store.LivePersonasMembers | backend/internal/repository/persona_repository.go:29-33 | the person listing holds exactly the visible persons, each with its area attached |
| Store.LivePersonasAscending | backend/internal/repository/persona_repository.go:29-33 | the person listing is strictly ascending by id, so no person is listed twice |
| Store.FirstByEmail | backend/internal/repository/persona_repository.go:41-45 | the lookup finds the visible person with that exact email and the lowest id, or nothing exactly when no visible person holds it |
| Store.DeletedPersonaLeavesEmailLookup | backend/internal/repository/persona_repository.go:51-53 | once a person is soft-deleted, looking up that person's email finds nobody |
| Store.CountPersonas | backend/internal/repository/area_repository.go:52-53 | `COUNT(personas.id)` for one area: the number of visible persons whose `area_id` is that area; its zero case is proved in `Store.CountZeroIff` |
| Store.CountZeroIff | backend/internal/repository/area_repository.go:52-53 | the count of an area is 0 exactly when no visible person references it |
| Store.WithCounts | backend/internal/repository/area_repository.go:52 | the projection produces one row per area, in order, with the area's id, name, description and person count |
| Store.WithCountsAppend | backend/internal/repository/area_repository.go:52-54 | the projection distributes over concatenation |
| Store.Conteo | backend/internal/repository/area_repository.go:51-55 | the grouped query: the count projection over the visible areas; its rows are described by `Store.ConteoRows` and their total by `Store.SumOfCounts` |
| Store.ConteoRows | backend/internal/repository/area_repository.go:51-55 | every row is a visible area with its stored name and its count; every visible area has a row, count 0 included; rows are ascending by id |
| Store.ReferencingStep | backend/internal/repository/area_repository.go:53 | the persons referencing areas 1..n are the persons referencing 1..n-1 plus, disjointly, those of area n when it is visible |
| Store.SumOfCounts | backend/internal/repository/area_repository.go:51-55 | the counts of areas 1..n add up to the number of visible persons whose area is a visible area among 1..n |
| Store.TotalOfConteo | backend/internal/repository/area_repository.go:51-55 | over the whole table, the counts add up to the number of visible persons whose area is visible |
| Store.Database.Valid | backend/internal/model/persona.go:9-13 | the constraints `AutoMigrate` creates from the tags: unique `nombre` and unique `email` over all rows, deleted ones included; every `area_id` names an area row; every value fits its `varchar` width; and, as a choice of this model rather than a database constraint, every id is non-zero and below its sequence |
| Store.Database.constructor | backend/cmd/server/main.go:58 | the freshly migrated database is empty, meets `Valid`, and has both sequences at 1 and no failure |
| AreaRepository.Repository.Create | backend/internal/repository/area_repository.go:25-27 | a connection failure changes nothing; otherwise the insert succeeds exactly when the name fits 100 characters, the id is new and no row, deleted or not, has the name; the stored record gets a fresh non-zero id; a failure writes no row, though an auto id is still consumed; the sequence after an explicit id is stated too |
| AreaRepository.Repository.GetAll | backend/internal/repository/area_repository.go:29-33 | the result is exactly the visible areas, strictly ascending by id (the order the model fixes), or the connection error |
| AreaRepository.Repository.GetByID | backend/internal/repository/area_repository.go:35-39 | the result is the visible area with that id, or record-not-found exactly when there is none |
| AreaRepository.Repository.Update | backend/internal/repository/area_repository.go:41-43 | a zero id creates, succeeding exactly when the name fits and no row holds it; any other id makes the row that record, visible again, subject to the same column and unique checks; a failure writes nothing |
| AreaRepository.Repository.Delete | backend/internal/repository/area_repository.go:45-47 | the row is only marked deleted, with no error even when the id is absent; afterwards `GetByID` misses it and `GetAll` is the former list minus that id |
| AreaRepository.Repository.GetAreasConConteo | backend/internal/repository/area_repository.go:49-57 | one row per visible area, in ascending id order, each with the area's stored name and description and the number of visible persons referencing it; the counts add up to the visible persons with a visible area |
| PersonaRepository.PutKeepsConstraints | backend/internal/model/persona.go:11-13 | writing a fitting record with a free email and an existing area keeps the persons table's invariants; a new key adds exactly one row |
| PersonaRepository.Repository.Create | backend/internal/repository/persona_repository.go:25-27 | the insert succeeds exactly when both columns fit 200 characters, the id is new, no row, deleted or not, has the email, and the area row exists; it then adds exactly one row under a fresh non-zero id; an email held by a deleted row is still refused; the sequence after the call is stated |
| PersonaRepository.Repository.GetAll | backend/internal/repository/persona_repository.go:29-33 | exactly the visible persons, each with its visible area attached, strictly ascending by id (the order the model fixes), or the connection error |
| PersonaRepository.Repository.GetByID | backend/internal/repository/persona_repository.go:35-39 | the visible person with that id, every column as stored, with the area its `area_id` names attached exactly when that area is visible; record-not-found exactly when there is none |
| PersonaRepository.Repository.GetByEmail | backend/internal/repository/persona_repository.go:41-45 | the visible person with exactly that email, as stored and without the area, or record-not-found exactly when none is visible; a failure of this query alone is returned as that failure |
| PersonaRepository.Repository.Update | backend/internal/repository/persona_repository.go:47-49 | a zero id creates, succeeding exactly when the columns fit, no row holds the email and the area row exists; any other id writes the record under that id, subject to the column, unique-email and foreign-key checks; a failure writes nothing |
| PersonaRepository.Repository.Delete | backend/internal/repository/persona_repository.go:51-53 | the row is only marked deleted; afterwards both the lookup by id and the lookup by that person's email miss |
| AreaService.Service.Create | backend/internal/service/area_service.go:27-29 | exactly the repository's insert, with no uniqueness check of its own |
| AreaService.Service.GetAll | backend/internal/service/area_service.go:31-33 | exactly the repository's listing; a repository error comes back unchanged |
| AreaService.Service.GetByID | backend/internal/service/area_service.go:35-37 | exactly the repository's lookup: found exactly when the id is visible, then the stored area; record-not-found otherwise |
| AreaService.Service.Update | backend/internal/service/area_service.go:39-50 | a missing id gives "área no encontrada" and no write; a connection error passes through; otherwise the record is saved under the path id |
| AreaService.Service.Delete | backend/internal/service/area_service.go:52-61 | a missing or already deleted id gives "área no encontrada" and no write; otherwise the area is soft-deleted and no longer visible |
| AreaService.Service.GetAreasConConteo | backend/internal/service/area_service.go:63-65 | exactly the repository's counting query: every visible area once, ascending, with its stored columns and count, and the same total |
| PersonaService.Service.Create | backend/internal/service/persona_service.go:27-40 | an email held by a visible person gives "el correo electrónico ya está registrado" and no write, whatever the name and area; when the lookup fails on its own, its error is dropped and the insert goes ahead, so a duplicate is refused by the unique index instead; success adds exactly one row with a non-zero id |
| PersonaService.Service.GetAll | backend/internal/service/persona_service.go:42-44 | exactly the repository's listing |
| PersonaService.Service.GetByID | backend/internal/service/persona_service.go:46-48 | exactly the repository's lookup by id: found exactly when the id is visible, then the stored person with its visible area attached; record-not-found otherwise |
| PersonaService.Service.GetByEmail | backend/internal/service/persona_service.go:50-52 | exactly the repository's lookup by email: found exactly when a visible person holds it, then that person as stored and without the area |
| PersonaService.Service.Update | backend/internal/service/persona_service.go:54-73 | a missing id gives "persona no encontrada" and no write; a changed email held by another visible person is a duplicate; an unchanged email never is; a failed email lookup is dropped and the save goes ahead under the unique index; otherwise the record is saved under the path id |
| PersonaService.Service.Delete | backend/internal/service/persona_service.go:75-84 | a missing id gives "persona no encontrada" and no write; otherwise the person is soft-deleted and both lookups miss |
| Http.DecimalPrefixBound | backend/internal/handler/area_handler.go:63 | the value of a prefix of a digit string never exceeds the value of the whole string |
| Http.Scan | backend/internal/handler/area_handler.go:63 | the digit loop with its overflow check accepts exactly the digit strings whose value fits 32 bits, and returns that value |
| Http.ParseUint32 | backend/internal/handler/area_handler.go:63-69 | an id parses exactly when it is a non-empty string of ASCII digits whose value is at most 4294967295 |
| Http.LeadingZero | backend/internal/handler/persona_handler.go:63 | leading zeros do not change the parsed value |
| Http.RenderParses | backend/internal/handler/persona_handler.go:63 | rendering a number in decimal and parsing it back gives the number when it fits 32 bits and a parse failure otherwise |
| AreaHandler.Create | backend/internal/handler/area_handler.go:21-44 | a binding failure gives 400 "Datos inválidos" with its details; a service error gives 500; success gives 201 with the created record |
| AreaHandler.GetAll | backend/internal/handler/area_handler.go:47-59 | a service error gives 500; success gives 200 with the list as data |
| AreaHandler.GetByID | backend/internal/handler/area_handler.go:62-82 | a bad id gives 400 "ID inválido"; any service error gives 404; success gives 200 with the area |
| AreaHandler.Update | backend/internal/handler/area_handler.go:85-115 | the id is checked before the body; any service error, not-found included, gives 400; success gives 200 echoing the record |
| AreaHandler.Delete | backend/internal/handler/area_handler.go:118-138 | a bad id gives 400; any service error gives 404; success gives 200 with a message and no data |
| AreaHandler.GetAreasConConteo | backend/internal/handler/area_handler.go:141-153 | an error gives 500; success gives 200 with the rows passed through unchanged |
| PersonaHandler.Create | backend/internal/handler/persona_handler.go:21-44 | malformed or invalid JSON gives 400 without the service; a service error gives 400, not 500; success gives 201 with the created record |
| PersonaHandler.GetAll | backend/internal/handler/persona_handler.go:47-59 | a service error gives 500; success gives 200 with the list as data |
| PersonaHandler.GetByID | backend/internal/handler/persona_handler.go:62-82 | a bad id gives 400 "ID inválido"; any service error gives 404 |
| PersonaHandler.GetByEmail | backend/internal/handler/persona_handler.go:85-99 | any service error gives 404 "Persona no encontrada"; success gives 200 with the person |
| PersonaHandler.Update | backend/internal/handler/persona_handler.go:102-132 | a bad id gives 400; a binding failure gives 400; a service error gives 400; success gives 200 echoing what the service saved |
| PersonaHandler.Delete | backend/internal/handler/persona_handler.go:135-155 | a bad id gives 400; any service error gives 404; success gives 200 with no data |
| Registro.TrimStart | frontend/src/app/pages/registro/registro.component.ts:72 | stripping leading white space leaves a suffix not starting with white space, having removed only white space |
| Registro.TrimEnd | frontend/src/app/pages/registro/registro.component.ts:72 | stripping trailing white space leaves a prefix not ending with white space, having removed only white space |
| Registro.Trim | frontend/src/app/pages/registro/registro.component.ts:72 | the trimmed string is empty exactly when every character is white space |
| Registro.BlankIffAllSpace | frontend/src/app/pages/registro/registro.component.ts:80 | the "missing" guard holds exactly when the value is all white space (the empty string included) |
| Registro.IsBlank | frontend/src/app/pages/registro/registro.component.ts:72 | the "missing" guard: the value is empty or trims to the empty string; it is proved equal to "all white space" in `Registro.BlankIffAllSpace` |
| Registro.IndexOf | frontend/src/app/pages/registro/registro.component.ts:87 | the index is that of the first occurrence, or the length when there is none |
| Registro.EmailPattern | frontend/src/app/pages/registro/registro.component.ts:87-88 | `emailPattern.test(s)` as the checks a reader makes; proved to accept exactly what the regular expression accepts in `Registro.EmailPatternMatchesRegex` |
| Registro.PatternImpliesRegex | frontend/src/app/pages/registro/registro.component.ts:87-88 | a string passing the character checks splits into local part, '@', host, '.', suffix, each a non-empty run of non-space, non-'@' characters |
| Registro.RegexImpliesPattern | frontend/src/app/pages/registro/registro.component.ts:87-88 | a string the regular expression accepts has no white space, exactly one '@' not at the start, and a '.' after it with something on each side |
| Registro.EmailPatternMatchesRegex | frontend/src/app/pages/registro/registro.component.ts:87-88 | the character checks and the regular expression accept the same strings |
| Registro.AreaMissing | frontend/src/app/pages/registro/registro.component.ts:103 | the area guard: no area, `NaN`, or zero |
| Registro.ValidationError | frontend/src/app/pages/registro/registro.component.ts:72-108 | the cascade of the four checks, returning the first failing check's message; its meaning is proved in `Registro.ValidationErrorMeaning` |
| Registro.ValidationErrorMeaning | frontend/src/app/pages/registro/registro.component.ts:72-108 | the form passes exactly when the name and the email are not all white space, the email matches the pattern and an area is selected; otherwise the message is that of the first failing check, in the page's order |
| Registro.AcceptedFormIsNonEmpty | frontend/src/app/pages/registro/registro.component.ts:103-116 | an accepted form has a non-empty name, a non-empty email containing '@', and a non-NaN, non-zero area id |
| Registro.SubmitErrorMessage | frontend/src/app/pages/registro/registro.component.ts:141-147 | a failed POST shows the backend's `error` text when it has one, else the connection message for status 0, else the generic message |
| Registro.RegistroComponent.constructor | frontend/src/app/pages/registro/registro.component.ts:25-32 | the form starts empty, with no area, not loading and with no messages |
| Registro.RegistroComponent.OnAreasLoaded | frontend/src/app/pages/registro/registro.component.ts:43-51 | a non-empty received list becomes the options; an empty one makes the callback throw before the options are set, so they stay as they were; nothing else changes |
| Registro.RegistroComponent.OnAreasError | frontend/src/app/pages/registro/registro.component.ts:54-57 | a failed area load sets its fixed message; nothing else changes |
| Registro.RegistroComponent.OnSubmit | frontend/src/app/pages/registro/registro.component.ts:61-121 | both messages are cleared; the first failing check becomes the error and nothing is sent; otherwise loading starts and the untrimmed name, email and area id are sent |
| Registro.RegistroComponent.OnSubmitSuccess | frontend/src/app/pages/registro/registro.component.ts:124-130 | the success message is set, loading stops, and the fields become '', '' and null |
| Registro.RegistroComponent.OnSubmitError | frontend/src/app/pages/registro/registro.component.ts:137-147 | loading stops and the chosen error message is shown; the typed fields stay |
| Registro.RegistroComponent.OnAreaChange | frontend/src/app/pages/registro/registro.component.ts:168-178 | '' or 'undefined' clears the area; any other value stores `Number(value)`, NaN included |
| Resultados.Labels | frontend/src/app/pages/resultados/resultados.component.ts:123 | one label per row, in order, equal to the row's name |
| Resultados.Counts | frontend/src/app/pages/resultados/resultados.component.ts:124 | one bar per row, in order, equal to the row's count |
| Resultados.ResultadosComponent.constructor | frontend/src/app/pages/resultados/resultados.component.ts:24-27 | the page starts loading, with no rows, no error and total 0 |
| Resultados.ResultadosComponent.LoadAreasConteo | frontend/src/app/pages/resultados/resultados.component.ts:108-109 | a load starts by setting loading |
| Resultados.ResultadosComponent.OnConteoLoaded | frontend/src/app/pages/resultados/resultados.component.ts:113-127 | the rows are kept, the total is their sum (0 for none), labels and data follow the rows, and loading stops |
| Resultados.ResultadosComponent.OnConteoError | frontend/src/app/pages/resultados/resultados.component.ts:129-133 | the fixed statistics message is set and loading stops; the rows, total and chart stay |
| Resultados.ResultadosComponent.RecargarDatos | frontend/src/app/pages/resultados/resultados.component.ts:137-140 | the error is cleared before the load starts |

## Left out

- backend/cmd/server/main.go is not part of this model. It covers environment lookup, the DSN, the connection retry loop, `AutoMigrate`, CORS and route wiring. The only part used is the assumption that `AutoMigrate` creates the unique indexes and the foreign key the GORM tags describe.
- The `gorm.Model` timestamps are not modelled. Soft deletion is a flag, not a `deleted_at` time.
- Go's pointer out-parameters (`Create(&area)`, `area.ID = id`) are modelled as returned records.
- AreaRepository.Repository.Create, AreaRepository.Repository.Update, PersonaRepository.Repository.Create, PersonaRepository.Repository.Update: an explicit non-zero id that is inserted (a body with an `ID`, or a `Save` of an absent id) is stored as given, and the id sequence is moved past it (`Store.SeqAfter`). Postgres leaves the sequence alone, so a later auto-id insert that reaches that id fails on the primary key. The model never has that collision, and `Store.Database.Valid`'s "every id below its sequence" holds only because of this choice. The services that call these methods inherit it.
- PersonaRepository.Repository.Update: GORM's `Save` also upserts a nested `Area` association. The model writes the person's columns only.
- PersonaRepository.Repository.Create: GORM's `Create` also upserts a non-nil nested `Area` and sets `area_id` from it before the insert. The model ignores a nested `Area` and writes the person's columns only.
- PersonaService.Service.Create: inherits the gap above. A body with a nested `Area` is stored without that area being saved, and with the body's own `area_id`.
- Store.LiveAreas, Store.LivePersonas, Store.Conteo: `Find` and the grouped query have no `ORDER BY`, so Postgres returns rows in an unspecified order. The model fixes ascending id order, and every "ascending" claim in the table is about that choice.
- Errors.Text: the texts of the Postgres and driver errors are approximated. Only the three domain texts are exact.
- JSON decoding and the validator's `email` rule are inputs (`decoded`, `isEmail`), not modelled syntax.
- Model.BindPersona: the validator's exact order of field errors is only approximated by declaration order.
- The check-then-insert race between concurrent requests is not modelled. Every operation runs alone.
- Storage counts are unbounded naturals. The Go `int64` count and the JavaScript number sum of the results page are not modelled at their widths.
- Registro.RegistroComponent.OnAreaChange: JavaScript's `Number()` is not modelled. Its result is a parameter.
- Registro.RegistroComponent.OnSubmitSuccess: the two-second `setTimeout` redirect to `/resultados` is not modelled.
- The HTTP requests themselves are not modelled: the GET in `loadAreas`, the POST in `onSubmit` and the GET in `loadAreasConteo`. Each component method stops where the request is sent, and the response arrives as the argument of a callback method.
- The `console.log` output, the chart styling options and the `find` in `onAreaChange` (which only logs) are not modelled.
- A failure of any query other than the email lookup fails every call alike (`fault`). Only the email lookup can fail on its own (`lookupFault`), because it is the one lookup whose error the services drop.
- The results page declares the row's id as `ID`, but the backend sends `AreaConConteo` with the key `id`. The registration page's `ID` matches the key the backend sends for `Area`. The model keeps a single `id` and does not reproduce the undefined field the results page declares.
- The frontend auth service and guard, and the home page, are not part of this model.
