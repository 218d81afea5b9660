/** The Python values that a user document of the MusFit backend holds, and
    the pieces of Python semantics (truthiness, `dict.get`, exceptions) the
    rest of the model is written in. */
module Values {

  datatype Option<T> = None | Some(value: T)

  datatype Result<T, E> = Ok(value: T) | Err(error: E)

  /** The exceptions the modelled code can raise. */
  datatype PyError = IndexError | ValueError | OverflowError | AssertionError

  /** A calendar date, as `datetime.datetime(year, month, day)` builds it (at midnight). */
  datatype Date = Date(year: int, month: int, day: int)

  /** A Python value as stored in a document: `None`, a bool, an int, a
      float, a str, a datetime, a list or a dict with string keys. A float is
      modelled by its exact real value. */
  datatype Value =
    | Null
    | Bool(b: bool)
    | Int(i: int)
    | Float(r: real)
    | Str(s: string)
    | DateTime(date: Date)
    | List(items: seq<Value>)
    | Dict(entries: map<string, Value>)

  /** A document of the store: a dict from field names to values. */
  type Doc = map<string, Value>

  /** Python truthiness, as `bool(v)` and `v or default` see it. */
  predicate Truthy(v: Value)
  {
    match v
    case Null => false
    case Bool(b) => b
    case Int(i) => i != 0
    case Float(r) => r != 0.0
    case Str(s) => s != ""
    case DateTime(_) => true
    case List(xs) => xs != []
    case Dict(m) => m != map[]
  }

  /** `v or default` */
  function Or(v: Value, default: Value): Value
  {
    if Truthy(v) then v else default
  }

  /** `d.get(key, None)` */
  function Get(d: Doc, key: string): Value
  {
    if key in d then d[key] else Null
  }
}
