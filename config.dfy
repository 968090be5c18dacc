/** The fixed board configuration the task routes are checked against. */
module Config {

  /** The workflow columns, in board order. */
  const Columns: seq<string> := ["Recurring", "Backlog", "In Progress", "Review", "Done"]

  /** The accepted priority names. */
  const Priorities: seq<string> := ["High", "Medium", "Low"]
}
