/** Optional values, and the truthiness test the quiz applies to a
    `string | null` selection (src/App.tsx:25, 49, 86). */
module Maybe {

  datatype Option<T> = None | Some(value: T)

  /** JavaScript truthiness of a `string | null`: null and the empty string are falsy. */
  predicate Truthy(a: Option<string>) {
    a.Some? && a.value != ""
  }
}
