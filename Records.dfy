/** The record shapes that flow between the merger, the enricher and the normaliser. */
module Records {
  /** A CSV row as `csv.DictReader` yields it: column name to cell text. */
  type CsvRecord = map<string, string>

  /** A JSON value of an enriched or normalised record (`None`, `str`, `int` or `list[str]`). */
  datatype Value = Null | Str(text: string) | Int(number: int) | StrList(items: seq<string>)

  /** An enriched or normalised record: field name to value. */
  type Record = map<string, Value>

  /** `r.get(key)`: the value under `key`, or None when it is absent. */
  function Get(r: Record, key: string): Value {
    if key in r then r[key] else Null
  }
}
