/**
 * The observable result of db.Write: it either returns nil after writing
 * the snapshot or panics (marshalling or file write failed). Its error
 * return is never non-nil.
 */
module Db {

  datatype WriteOutcome = Written | Panicked
}
