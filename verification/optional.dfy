/** The `T | null` results of the course accessors. */
module Optional {

  /** `None` stands for JavaScript's `null` (or `undefined`). */
  datatype Option<+T> = None | Some(value: T)
}
