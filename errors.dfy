/** The `error` values that travel between the layers: the storage layer's signals
    (GORM's record-not-found, the Postgres constraint violations, a failed connection)
    and the three domain errors the services create with `errors.New`. */
module Errors {

  datatype Error =
    | RecordNotFound                  // gorm.ErrRecordNotFound
    | UniqueViolation(column: string) // a unique index or the primary key refused the row
    | ValueTooLong(column: string)    // a value longer than its varchar(n) column
    | ForeignKeyViolation             // personas.area_id names no row of areas
    | Unavailable(msg: string)        // any other failure of the database connection
    | AreaNotFound                    // errors.New("área no encontrada")
    | PersonaNotFound                 // errors.New("persona no encontrada")
    | EmailTaken                      // errors.New("el correo electrónico ya está registrado")

  /** Errors that come from the storage layer rather than from a service's own checks. */
  predicate IsStorageError(e: Error)
  {
    !(e.AreaNotFound? || e.PersonaNotFound? || e.EmailTaken?)
  }

  /** `err.Error()`: the exact text of the domain errors; the storage errors carry the
      driver's text, which the model only approximates. */
  function Text(e: Error): string
  {
    match e
    case RecordNotFound => "record not found"
    case UniqueViolation(c) => "ERROR: duplicate key value violates unique constraint on " + c + " (SQLSTATE 23505)"
    case ValueTooLong(c) => "ERROR: value too long for type character varying in " + c + " (SQLSTATE 22001)"
    case ForeignKeyViolation => "ERROR: insert or update on table \"personas\" violates foreign key constraint (SQLSTATE 23503)"
    case Unavailable(msg) => msg
    case AreaNotFound => "área no encontrada"
    case PersonaNotFound => "persona no encontrada"
    case EmailTaken => "el correo electrónico ya está registrado"
  }
}
