/** What a handler receives from a JSON request body and what it sends back. */
module Http {
  import opened Wrappers

  /** A JSON value as it arrives in `req.body`; `Undefined` is a missing key. */
  datatype JsValue = Undefined | Null | Boolean(b: bool) | Number(n: int) | Str(s: string)

  /** `typeof v === "boolean"` */
  predicate IsBoolean(v: JsValue) {
    v.Boolean?
  }

  /** A string field of the body: `None` when the key is missing or null. */
  type Field = Option<string>

  /** JavaScript truthiness of a string field: undefined, null and "" are all falsy. */
  predicate Present(f: Field) {
    f.Some? && f.value != ""
  }

  /** The `message` of each reply, as a tag; the exact text is not modelled. */
  datatype Message =
    | AllFieldsRequired
    | DuplicateOrder
    | NewOrderCreated
    | OrderNotFound
    | OrderIdRequired
    | OrderUpdated(title: string)
    | OrderDeleted
    | NoOrdersFound
    | NoUsersFound

  datatype Response = Response(status: int, message: Message)

  const OK := 200
  const Created := 201
  const BadRequest := 400
  const Conflict := 409

  /** The outcome of a list endpoint: the records (status 200), a refusal with a status and
      message, or an exception that escapes the handler to the process-wide error handler. */
  datatype Listing<T> = Records(records: seq<T>) | Refused(reply: Response) | Thrown
}
