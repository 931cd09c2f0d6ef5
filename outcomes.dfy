/** Option and Result values, and the exceptions the two `codes.py` files raise or let escape. */
module Outcomes {

  datatype Option<+T> = None | Some(value: T)

  /** The Python exception a failing operation ends with. */
  datatype Failure =
    | ConnectionError         // non-200 HTTP status
    | AttributeError          // no table with class "h4" on the page
    | IndexError              // `symbol_column[1]` or `all_td[0]` out of range
    | ValueError              // pandas: the widest row is not nine cells wide
    | ConnectionRefusedError  // the store reported no written rows
    | TypeError               // unknown category name, unsupported keyword argument, or calling `None`
    | FileExistsError         // lookup found no codes at all
    | FileNotFoundError       // the CSV fallback file is missing
    | OperationalError        // the database is unreachable, the table is missing, or it already has a key
    | ProgrammingError        // `ALTER TABLE` names a table that does not exist
    | IntegrityError          // the new primary key meets a repeated symbol
    | DataError               // `NOT NULL` meets a null symbol

  datatype Result<+T> = Ok(value: T) | Err(error: Failure)
}
