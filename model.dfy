/**
 * The records of the calculation service (internal/model/model.go) as they are stored in the
 * `expressions` and `tasks` tables, and the textual notion of "reference" the store relies on.
 */
module Model {
  import opened Wrappers

  /** A float64 submitted by a worker, identified by its `%g` rendering (which is unique per value). */
  datatype Value = Value(g: string)

  /** The `%g` text that is written into a dependent task's argument. */
  function Format(v: Value): (r: string)
  {
    v.g
  }

  /** One row of the `tasks` table; `result` is NULL (None) until a worker submits a value. */
  datatype Task = Task(
    id: string,
    arg1: string,
    arg2: string,
    operation: string,
    result: Option<Value>,
    expressionId: string)

  /** The `status` column of an expression row. */
  datatype Status = Pending | InProgress | Completed

  /**
   * The `result` column of an expression row: NULL, the id of the root task while the
   * expression is being computed, or the final value once it is completed.
   */
  datatype ResultCell = NullCell | IdCell(id: string) | ValueCell(v: Value)

  /** One row of the `expressions` table. */
  datatype Expression = Expression(
    id: string,
    text: string,
    status: Status,
    result: ResultCell,
    userId: int)

  /** The failures the core can report. */
  datatype Fault = InvalidExpression | MalformedExpression | UnknownTask | PersistenceError

  predicate IsLetter(c: char)
  {
    ('a' <= c <= 'z') || ('A' <= c <= 'Z')
  }

  /**
   * The store tells a reference to another task from a numeric operand by this test alone
   * (`GLOB '*[a-zA-Z]*'`); task ids are assumed to contain a letter.
   */
  predicate HasLetter(s: string)
  {
    exists i :: 0 <= i < |s| && IsLetter(s[i])
  }

  /** A text with a letter is never empty and never one of the four operator tokens. */
  lemma LetterTextIsNoOperator(s: string)
    requires HasLetter(s)
    ensures s != "" && s != "+" && s != "-" && s != "*" && s != "/"
  {
  }
}
