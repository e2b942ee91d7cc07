/** Option and result values standing in for Go's nil-or-value and value-or-error returns. */
module Results {

  datatype Option<+T> = None | Some(value: T)

  /** The failures the sheet builder can report (in the Go code each one is an error value or a panic). */
  datatype Error =
    | ColumnNumberOutOfRange  // excelize.ColumnNumberToName outside 1..16384
    | NotAColumnReference     // findHeaderColumnName: neither a header title nor an A-Z column name
    | UnsupportedKind         // getRowData: the row is neither a struct nor a slice

  datatype Result<+T> = Ok(value: T) | Err(error: Error)
}
