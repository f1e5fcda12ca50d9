/** What a route handler answers: a JSON body, or `{ error }` with an HTTP status. */
module Http {
  import opened Wrappers

  datatype Response<T> = Ok(body: T) | Fail(status: int, error: string)

  /** JavaScript truthiness of a request field that is a string or absent. */
  predicate Truthy(field: Option<string>) {
    field.Some? && field.value != ""
  }
}
