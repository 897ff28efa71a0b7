/** The Option datatype the rest of the model uses for JSON fields and SQL NULLs. */
module Wrappers {

  /** `None` stands for a JSON field that is absent or null, or a NULL column. */
  datatype Option<+T> = None | Some(value: T)
}
