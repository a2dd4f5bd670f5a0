/**
 * The semi-structured records that travel between the stages: one JSON object
 * per stock, as a map from field name to value.
 */
module Records {

  /**
   * A JSON scalar as the stages see it. `Fixed2(scaled, suffix)` is the text
   * f"{scaled:.2f}{suffix}" that the normalizer writes for a market cap; the
   * digits of that text are not modelled, only the number and the suffix.
   */
  datatype Value =
    | Null
    | Bool(b: bool)
    | Int(i: int)
    | Real(r: real)
    | Str(s: string)
    | Fixed2(scaled: real, suffix: string)

  type Record = map<string, Value>

  /** Session phase carried in a batch's name and in each normalized record. */
  datatype Phase = Opening | Closing | Unknown
  {
    function Text(): string
    {
      match this
      case Opening => "opening"
      case Closing => "closing"
      case Unknown => "unknown"
    }
  }

  /** An object put into the bucket: its key and the JSON list it holds. */
  datatype StoredObject = StoredObject(key: string, records: seq<Record>)
}
