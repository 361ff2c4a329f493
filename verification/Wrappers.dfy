/** A value that may be absent: what the source keeps in nullable fields, and what a thrown error leaves. */
module Wrappers {
  datatype Option<+T> = None | Some(value: T)
}
