/** The optional-value type used throughout the model.
    `None` stands for a JavaScript property that is absent or `undefined`
    (and, for numbers, for `NaN`); `Some(v)` for a property holding `v`. */
module Wrappers {

  datatype Option<+T> = None | Some(value: T)
}
