/**
 * The database capability the engine calls: `Init`, `Select` and `Update`.
 * Drivers are foreign, so a database here answers from two constants (what a
 * select returns, what an update returns) and keeps a ghost log of every call
 * made on it, so that contracts can say which calls the engine issued.
 */
module Store {
  import opened Values
  import opened Wrappers

  /** The arguments of one `Update(table, keyColumn, keyValue, column, value)`. */
  datatype UpdateRequest = UpdateRequest(table: string, keyColumn: string, keyValue: Value, column: string, value: Value)

  datatype DbCall =
    | InitCall
    | SelectCall(table: string, where: string)
    | UpdateCall(request: UpdateRequest)

  class Database {
    /** `GetConfig().GetName()`. */
    const name: string
    /** The rows the store returns for `Select(table, where)`. */
    const answer: (string, string) -> seq<Row>
    /** The store's reply to an update: its result value or its error text. */
    const outcome: UpdateRequest -> Result<Value, string>
    /** Every call made on this database, oldest first. */
    ghost var log: seq<DbCall>

    constructor (name: string, answer: (string, string) -> seq<Row>, outcome: UpdateRequest -> Result<Value, string>)
      ensures this.name == name && this.answer == answer && this.outcome == outcome
      ensures log == []
    {
      this.name := name;
      this.answer := answer;
      this.outcome := outcome;
      log := [];
    }

    method Init()
      modifies this`log
      ensures log == old(log) + [InitCall]
    {
      log := log + [InitCall];
    }

    method Select(table: string, where: string) returns (rows: seq<Row>)
      modifies this`log
      ensures rows == answer(table, where)
      ensures log == old(log) + [SelectCall(table, where)]
    {
      rows := answer(table, where);
      log := log + [SelectCall(table, where)];
    }

    method Update(table: string, keyColumn: string, keyValue: Value, column: string, value: Value)
      returns (res: Result<Value, string>)
      modifies this`log
      ensures res == outcome(UpdateRequest(table, keyColumn, keyValue, column, value))
      ensures log == old(log) + [UpdateCall(UpdateRequest(table, keyColumn, keyValue, column, value))]
    {
      res := outcome(UpdateRequest(table, keyColumn, keyValue, column, value));
      log := log + [UpdateCall(UpdateRequest(table, keyColumn, keyValue, column, value))];
    }
  }
}
