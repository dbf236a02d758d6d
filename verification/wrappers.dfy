/** The optional-value datatype shared by the other modules (JavaScript's
    `undefined` / `null` on one side, a present value on the other). */
module Wrappers {

  datatype Option<+T> = None | Some(value: T)

  /** JavaScript truthiness of an optional string: present and non-empty. */
  predicate Truthy(v: Option<string>) {
    v.Some? && v.value != ""
  }
}
