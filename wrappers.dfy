/** The optional value used for nullable fields (`dueDate`, `editingTaskId`). */
module Wrappers {
  datatype Option<+T> = None | Some(value: T)
}
