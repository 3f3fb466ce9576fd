/** Values that JavaScript properties may take: present or absent, truthy or falsy. */
module Values {

  /** A property that may be `undefined` (None) or hold a value (Some). */
  datatype Option<+T> = None | Some(value: T)

  /** JavaScript truthiness of an optional string property:
      `undefined`, `null` and the empty string are falsy, every other string is truthy. */
  predicate Truthy(o: Option<string>)
  {
    o.Some? && o.value != ""
  }
}
