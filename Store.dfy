/**
 * What a query sees of the database: either the table's rows, or a failure
 * of the read itself (lost connection, bad query).
 */
module Store {

  /** The errors a query can return. */
  datatype DbError =
    | ErrRecordNotFound          // gorm.ErrRecordNotFound, from First on no match
    | StoreError(cause: string)  // any failure of the read, passed on unchanged

  /** The outcome of reading a table: all of its rows, soft-deleted ones included. */
  datatype Read<T> = Rows(rows: seq<T>) | Failed(cause: string)
}
