/**
 * The values that travel through the cache and the services: what the
 * repositories return and what is pickled into Redis. Pickling is treated as
 * the identity, so a cache entry holds the value itself.
 */
module Values {

  /** Text form of a UUID (`str(uuid.UUID(...))`). */
  type Id = string

  /** A Python value as the core sees it. */
  datatype Val =
    | Null                    // None
    | Text(s: string)         // str
    | Cents(c: int)           // a Decimal quantized to two places, c hundredths
    | Item(row: Row)          // one repository row
    | Items(rows: seq<Row>)   // a list of repository rows

  /** A repository row: its primary key and its other columns by name. */
  datatype Row = Row(id: Id, fields: map<string, Val>)

  /** Python truthiness (`if value:`). A row is a non-empty record, hence truthy. */
  predicate Truthy(v: Val) {
    match v
    case Null => false
    case Text(s) => s != ""
    case Cents(c) => c != 0
    case Item(_) => true
    case Items(rs) => |rs| > 0
  }
}
