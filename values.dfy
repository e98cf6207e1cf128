/**
 * Cell values and rows. The console's rows are plain objects whose values are
 * strings or numbers; a row is a map from column name to value, and a column
 * a row lacks reads as `undefined`.
 */
module Values {
  import opened Text

  /** An optional value, for the `undefined` a lookup can return. */
  datatype Option<+T> = None | Some(value: T)

  /** A cell: a JavaScript number (kept exact) or a string. */
  datatype Value = VNum(n: real) | VStr(s: string)

  type Row = map<string, Value>

  /** JavaScript truthiness of a present cell: 0 and "" are falsy. */
  predicate Truthy(v: Value) {
    match v
    case VNum(n) => n != 0.0
    case VStr(s) => s != ""
  }

  /**
   * `String(row[col])`: numbers are rendered by `fmt` (the engine's number
   * formatting), strings as they are, and a missing cell as "undefined".
   */
  function Display(row: Row, col: string, fmt: real -> string): string {
    if col !in row then "undefined"
    else match row[col]
      case VNum(n) => fmt(n)
      case VStr(s) => s
  }

  /** The number stored under `col`, or 0 when it is missing or not a number (`row[col] || 0`). */
  function NumberOr0(row: Row, col: string): real {
    if col in row && row[col].VNum? then row[col].n else 0.0
  }

  /** The string stored under `col`, or "" when it is missing or not a string (`row[col] || ''`). */
  function StringOrEmpty(row: Row, col: string): string {
    if col in row && row[col].VStr? then row[col].s else ""
  }

  /** `columns.every(c => c in row)` and nothing else: the row's keys are exactly `cols`. */
  predicate HasExactly(row: Row, cols: seq<string>) {
    row.Keys == set c | c in cols
  }
}
