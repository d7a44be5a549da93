/** Rust's `Option`, as used by the application for `grid_rows_count` and file extensions. */
module Wrappers {
  datatype Option<+T> = None | Some(value: T)
}
