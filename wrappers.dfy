/** The conventional optional value: `None` stands for a JavaScript value that is
    `undefined`, `null` or otherwise falsy where the widget only tests for presence. */
module Wrappers {
  datatype Option<+T> = None | Some(value: T)
}
