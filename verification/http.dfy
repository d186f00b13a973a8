/** What the API handlers receive and answer, reduced to the parts they inspect. */
module Http {
  import opened Wrappers
  import opened Notes

  /** The single field of a JSON response body. */
  datatype Reply = Inserted(insertedId: RemoteId) | Message(message: string) | Error(error: string)

  datatype Response = Response(status: nat, reply: Reply)

  /** `response.ok` for `fetch`; axios resolves exactly on these statuses and rejects otherwise. */
  predicate Success(status: nat) { 200 <= status < 300 }

  /**
   * A `tags` field whose JSON type the handlers test with `Array.isArray`:
   * absent, an array of strings, or some other JSON value.
   */
  datatype TagsField = NoTags | TagList(tags: seq<string>) | NotAList

  /** JavaScript falsiness of an optional string: `undefined` or `""`. */
  predicate Falsy(s: Option<string>) { s.None? || s == Some("") }

  const MethodNotAllowed := Response(405, Error("Method not allowed"))
}
