/** A data frame: the set of its columns and its rows, in order. */
module Tables {

  datatype Frame<C, R> = Frame(columns: set<C>, rows: seq<R>) {
    /** Number of rows (the first component of a polars `shape`). */
    function Height(): nat { |rows| }
  }
}
