/**
 * Request and response shapes shared by the controllers: optional request
 * fields with JavaScript truthiness, the flat JSON values a database row
 * serialises to, and the `{ success, ... }` response bodies every handler
 * sends.
 */
module Http {

  const OK: nat := 200
  const Created: nat := 201
  const BadRequest: nat := 400
  const NotFound: nat := 404

  datatype Option<+T> = None | Some(value: T)

  /** A key of a JSON request object: either not sent, or sent with a value. */
  datatype Field<+T> = Absent | Given(value: T)

  /** JavaScript truthiness of a string-valued request field: absent and "" are falsy. */
  predicate Truthy(f: Field<string>) {
    f.Given? && f.value != ""
  }

  /** The value a present field carries, or the value already there when it is absent. */
  function Override<T>(f: Field<T>, current: T): (r: T)
  {
    match f
    case Given(v) => v
    case Absent => current
  }

  /** Values a serialised database row may hold. */
  datatype Value = Null | Str(s: string) | Num(n: int)

  type JsonObject = map<string, Value>

  /**
   * Response bodies. `Item` is `{ success: true, data }`, `Items` is
   * `{ success: true, count, data: [...] }`, `Message` is
   * `{ success: true, message }` and `Error` is `{ success: false, error }`.
   */
  datatype Body<+T> =
    | Item(item: T)
    | Items(count: nat, items: seq<T>)
    | Message(message: string)
    | Error(error: string)
  {
    /** The `success` flag of the JSON body. */
    predicate Success() {
      !Error?
    }
  }

  datatype Response<+T> = Response(status: nat, body: Body<T>)
}
