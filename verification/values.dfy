/** Python values as they come out of a database row, with their truthiness,
    and the exceptions the ingestion step can raise. */
module Values {

  /** A column value as psycopg hands it to the script. Values of types the model
      does not tell apart (uuid, timestamp, decimal, bytes, list) are `Opaque`
      and carry their own Python truthiness. */
  datatype Value =
    | Null
    | Bool(b: bool)
    | Int(i: int)
    | Str(s: string)
    | Opaque(repr: string, truthy: bool)

  /** Python's `bool(v)`: None, False, 0 and "" are falsy. */
  predicate Truthy(v: Value) {
    match v
    case Null => false
    case Bool(b) => b
    case Int(i) => i != 0
    case Str(s) => |s| > 0
    case Opaque(_, t) => t
  }

  /** A fetched row after decoding: a dict from column name to value. */
  type Row = map<string, Value>

  /** `row.get(column)`: None when the column is absent. */
  function Get(row: Row, column: string): Value {
    if column in row then row[column] else Null
  }

  /** The exceptions that leave `stack()`. */
  datatype Error =
    | KeyError(key: string)             // `del` of a column the row does not have
    | UnboundLocalError(name: string)   // `res` read after every fetch attempt failed
    | Raised(exception: string)         // a non-operational database error, re-raised

  datatype Result<T> = Success(value: T) | Failure(error: Error)
}
