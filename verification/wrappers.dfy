/** Optional values: a missing cell, a document that produced no workbook. */
module Wrappers {
  datatype Option<+T> = None | Some(value: T)
}
