/** The task list's closed set of failure kinds (Rust's `TaskListError`) and
    the result type its operations return. */
module Errors {

  datatype TaskListError =
    | AmbiguousPrefix    // a prefix matches more than one task
    | BadPrefix          // a prefix matches no task
    | BadParentPrefix    // the parent prefix given to add matches no task
    | DuplicateTask      // an explicit id is already taken
    | RemoveHasChildren  // removal without force of a task that has children
    | IOError            // file errors; the modelled operations never raise it

  datatype Result<+T> = Ok(value: T) | Err(error: TaskListError)
}
