/** What the remote record store answers. The store itself is not modelled:
    every insert, update, delete or select is a parameter of the handler
    that issues it. */
module Store {

  /** The answer to one insert, update or delete. */
  datatype Outcome = Succeeded | Failed(message: string)

  /** The answer to one select: rows, neither rows nor an error, or an error. */
  datatype Fetch<T> = Rows(rows: seq<T>) | NoData | FetchFailed(message: string)

}
