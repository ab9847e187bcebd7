/**
 * How a request ends when it does not succeed: an HTTPException raised by a
 * route or a dependency, the 400 that lists unknown permission names, or an
 * exception nothing catches, which the application's catch-all handler
 * turns into 500 "Error interno del servidor" (src/main.py).
 */
module Http {
  import opened Db

  const BadRequest: nat := 400
  const Unauthorized: nat := 401
  const Forbidden: nat := 403
  const NotFound: nat := 404
  const InternalServerError: nat := 500

  /** An exception a handler lets through. */
  datatype Fault =
    | IntegrityError(error: DbError)
    | ValueError(text: string)
    | AttributeError(name: string)
    | TypeError(text: string)

  datatype HttpError =
    | HttpException(status: nat, detail: string)
    /** "Permisos no encontrados: " followed by the names, in the set's iteration order. */
    | PermissionsNotFound(missing: set<string>)
    | ServerError(cause: Fault)
  {
    /** The response's status code. */
    function Code(): nat {
      match this
      case HttpException(s, _) => s
      case PermissionsNotFound(_) => BadRequest
      case ServerError(_) => InternalServerError
    }
  }
}
