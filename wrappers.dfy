/** The absent-or-present value used for the nullable references of the
    conversions: `None` stands for Java's `null`. */
module Wrappers {

  datatype Option<+T> = None | Some(value: T)
}
