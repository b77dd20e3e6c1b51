/** Values every handler of the backend returns: an HTTP status with a JSON body.
    Each handler answers 200/201 on success, 400 for a rejected request, 404 when the
    referenced record is absent and 500 when the database layer throws (a failed schema
    validation included). */
module Http {

  datatype Option<T> = None | Some(value: T) {
    function GetOr(default: T): T {
      match this
      case Some(v) => v
      case None => default
    }
  }

  datatype Reply<T> =
    | Ok(body: T)
    | Created(body: T)
    | BadRequest(message: string)
    | NotFound(message: string)
    | ServerError(message: string)
  {
    /** The HTTP status code sent with the reply. */
    function Code(): nat {
      match this
      case Ok(_) => 200
      case Created(_) => 201
      case BadRequest(_) => 400
      case NotFound(_) => 404
      case ServerError(_) => 500
    }

    /** axios resolves only 2xx answers; everything else is thrown at the caller. */
    predicate Succeeded() {
      Ok? || Created?
    }
  }
}
