/** Vocabulary shared by every part of the model of the shop-reservation API:
    optional values, identifiers, the authenticated caller, schema errors and
    the outcome a request handler sends back. */
module Common {

  datatype Option<T> = None | Some(value: T) {
    /** The wrapped value, or `default` when there is none. */
    function GetOr(default: T): T {
      match this
      case Some(v) => v
      case None => default
    }
  }

  /** The text of a MongoDB ObjectId, as `toString()` and `req.user.id` give it. */
  type Id = string

  /** The caller that the authentication middleware put in `req.user`. */
  datatype Principal = Principal(id: Id, role: string)

  /** The role test of the handlers (`req.user.role !== "admin"` negated). */
  predicate IsAdmin(who: Principal) {
    who.role == "admin"
  }

  /** The owner-or-admin rule of the update and delete handlers: they refuse
      exactly when the owner differs from the caller AND the caller is no admin. */
  predicate MayModify(owner: Id, who: Principal) {
    owner == who.id || IsAdmin(who)
  }

  /** Which schema validator of a path rejected it. */
  datatype ErrorKind = Required | MaxLength | Mismatch | BelowMin | AboveMax | CastFailed

  /** One path's error inside a Mongoose ValidationError; `custom` is the
      message the schema gives for that validator, if it gives one. */
  datatype FieldError = FieldError(path: string, kind: ErrorKind, custom: Option<string>)

  /** What a schema makes of a request body: the document it would store,
      or the errors of the paths it refuses. */
  datatype Checked<T> = Accepted(doc: T) | Rejected(errors: seq<FieldError>)

  /** The `message` part of a failed response. */
  datatype Message =
    | NoMessage                            // `{ success: false }`
    | Text(text: string)                   // a message written in the handler
    | Invalid(errors: seq<FieldError>)     // the message of a ValidationError
    | DuplicateKey(path: string)           // the message of a unique-index violation

  /** What a handler answers: a status and data, or a status and a message. */
  datatype Outcome<T> = Success(status: int, data: T) | Failure(status: int, message: Message)
}
