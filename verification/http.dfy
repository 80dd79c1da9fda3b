/** The errors the handlers pass on to Express's error middleware with `next(err)`. */
module Http {

  import opened Wrappers

  datatype HandlerError =
    /** An error the handler builds itself, with the status it sets. */
    | HttpError(status: nat, message: string)
    /** The CastError Mongoose raises when a route id is not an ObjectId; it carries no status. */
    | CastError(value: string)

  /** The `status` property of the error, if it has one. */
  function Status(e: HandlerError): Option<nat> {
    match e
    case HttpError(status, _) => Some(status)
    case CastError(_) => None
  }
}
