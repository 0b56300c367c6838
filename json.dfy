/** JSON values as the Python handlers see them after `request.get_json()`,
    Python truthiness, `dict.get`, and the (status, payload) pairs the
    Flask handlers return. */
module Json {

  /** The JSON scalars a request field can carry. Floats, lists and objects
      are not part of this model. */
  datatype Json = JNull | JBool(b: bool) | JInt(i: int) | JStr(s: string)

  /** Python's `not x`: None, False, 0 and "" are falsy. */
  predicate Falsy(j: Json)
  {
    match j
    case JNull => true
    case JBool(b) => !b
    case JInt(i) => i == 0
    case JStr(s) => s == ""
  }

  /** A request body, the dictionary returned by `request.get_json()`. */
  type Body = map<string, Json>

  /** `data.get(key)`: None when the key is absent. */
  function Get(body: Body, key: string): Json
  {
    if key in body then body[key] else JNull
  }

  /** `data.get(key, default)`. */
  function GetOr(body: Body, key: string, default: Json): Json
  {
    if key in body then body[key] else default
  }

  /** The identity carried by an access token, as `get_jwt_identity()`
      returns it. */
  type Identity = map<string, Json>

  /** What a handler returns: a success status with its payload, or an error
      status with the message of its `{"msg": ...}` body. */
  datatype Reply<+T> = Success(status: int, value: T) | Failure(status: int, msg: string)

  /** The body Flask produces when a handler raises. */
  const InternalError: string := "Internal Server Error"
}
