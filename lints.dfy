/**
 * The lint descriptors the engine consumes: scope, condition, the callback's
 * verdict, and the table of registered lints keyed by (scope, condition).
 * The registration decorator itself is not part of this model; `Register`
 * below only assembles a table for the style module.
 */
module Lints {
  import opened Notebook

  /** Where a lint applies: the whole file, every cell, code cells, markdown cells. */
  datatype Scope = FILE | CELLS | CODE | TEXT

  /** How the per-cell results of a lint combine into one verdict. */
  datatype Cond = ANY | ALL

  /** What a callback returned: a Python bool, or any other value (shown by its repr). */
  datatype Verdict = BoolVerdict(b: bool) | OtherValue(repr: string)

  /** A notebook path: its text and the text of each of its parent directories. */
  datatype FilePath = FilePath(text: string, parents: seq<string>)

  /** The second argument of a callback: one cell, or the whole parsed notebook. */
  datatype Target = CellTarget(cell: Cell) | DocumentTarget(cells: seq<Cell>)

  /**
   * A registered lint. `message` is empty when none was given; `callback`
   * receives (source text, cell or notebook, path).
   */
  datatype Lint = Lint(
    name: string,
    style: string,
    message: string,
    scope: Scope,
    cond: Cond,
    callback: (string, Target, FilePath) -> Verdict)

  /** The lints registered under each (scope, condition), in registration order. */
  type LintTable = map<(Scope, Cond), seq<Lint>>

  /** `lint_dict[scope][cond]`; a key nobody registered under holds no lints. */
  function Lookup(table: LintTable, scope: Scope, cond: Cond): seq<Lint>
  {
    if (scope, cond) in table then table[(scope, cond)] else []
  }

  /** Adds a lint at the end of its (scope, condition) list. */
  function Register(table: LintTable, lint: Lint): LintTable
  {
    table[(lint.scope, lint.cond) := Lookup(table, lint.scope, lint.cond) + [lint]]
  }
}
