/**
 Raw spreadsheet cells and the exporter's configuration.
 */
module Cells {

  /** A raw cell value as the spreadsheet reader hands it over:
      blank (`None`), text, a number, or a boolean. */
  datatype Cell = Empty | Str(s: string) | Number(x: real) | Boolean(b: bool)

  /** Python truthiness of a cell value. */
  predicate Truthy(c: Cell)
  {
    match c
    case Empty => false
    case Str(s) => s != ""
    case Number(x) => x != 0.0
    case Boolean(b) => b
  }

  /** The configuration fields the exporter's engine reads. */
  datatype Config = Config(
    ignoreSheetMark: string,  // sheets whose name starts with it are skipped
    ignoreFieldMark: string,  // columns whose name starts with it are dropped
    input: string,            // root directory of the workbooks
    output: string            // root directory of the generated files
  )
}
