/**
 * The parsed form of a Jupyter notebook as the linter and the formatter see
 * it: JSON values, and cells with the keys the modelled code reads or writes.
 */
module Notebook {
  import opened Wrappers
  import opened Text

  /** A JSON value. Objects are dictionaries; numbers are integers here. */
  datatype Json =
    | JNull
    | JBool(b: bool)
    | JNum(n: int)
    | JStr(s: string)
    | JArr(items: seq<Json>)
    | JObj(fields: map<string, Json>)

  /**
   * One notebook cell: `cell_type`, the `source` lines, and the optional
   * `outputs`, `execution_count` and `metadata` entries.
   */
  datatype Cell = Cell(
    cellType: string,
    source: seq<string>,
    outputs: Option<seq<Json>>,
    executionCount: Option<Json>,
    metadata: Option<map<string, Json>>)

  /** `"".join(cell["source"])`: the text of the cell. */
  function SourceText(cell: Cell): string
  {
    Concat(cell.source)
  }
}
