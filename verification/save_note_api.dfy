/** `POST /api/save-note`: validate a note payload and insert it. */
module SaveNoteApi {
  import opened Wrappers
  import opened Notes
  import opened RemoteStore
  import opened Http

  /**
   * The request body. `createdAt` is a serialised `Date`, never an empty
   * string, so it is falsy only when missing.
   */
  datatype SaveBody = SaveBody(title: Option<string>, localId: Option<string>, createdAt: Option<Time>, tags: TagsField)

  datatype Outcome = Outcome(remote: Remote, response: Response)

  /** The handler's validation: a body with a truthy `title`, `localId` and `createdAt`. */
  predicate ValidBody(body: Option<SaveBody>)
  {
    && body.Some?
    && !Falsy(body.value.title)
    && !Falsy(body.value.localId)
    && body.value.createdAt.Some?
  }

  /** Non-array `tags` are replaced by the empty list; an array is kept as it is. */
  function NormalizeTags(tags: TagsField): (r: seq<string>)
    ensures tags.TagList? ==> r == tags.tags
    ensures !tags.TagList? ==> r == []
  {
    if tags.TagList? then tags.tags else []
  }

  /** The document the handler inserts for a valid body. */
  function Document(body: SaveBody): (doc: ServerNote)
    requires body.title.Some? && body.localId.Some? && body.createdAt.Some?
    ensures doc.title == body.title.value && doc.localId == body.localId.value
    ensures doc.createdAt == body.createdAt.value && doc.tags == NormalizeTags(body.tags)
  {
    ServerNote(body.title.value, body.localId.value, body.createdAt.value, NormalizeTags(body.tags))
  }

  /**
   * The handler. `dbUp` says whether the database can be reached; when it
   * cannot, the `catch` answers 500.
   */
  function Handle(verb: string, body: Option<SaveBody>, r: Remote, dbUp: bool): (out: Outcome)
    requires r.Valid()
    ensures out.remote.Valid()
    ensures out.response.status in {200, 400, 405, 500}
    ensures verb != "POST" ==> out == Outcome(r, MethodNotAllowed)
    ensures verb == "POST" && !ValidBody(body) ==> out == Outcome(r, Response(400, Error("Invalid note data")))
    ensures verb == "POST" && ValidBody(body) && !dbUp ==> out == Outcome(r, Response(500, Error("Failed to save note")))
    ensures out.response.status == 200 <==> verb == "POST" && ValidBody(body) && dbUp
    ensures out.response.status == 200 ==>
      && r.nextId !in r.docs
      && out.response.reply == Inserted(r.nextId)
      && out.remote.docs == r.docs[r.nextId := Document(body.value)]
      && |out.remote.docs| == |r.docs| + 1
  {
    if verb != "POST" then Outcome(r, MethodNotAllowed)
    else if !ValidBody(body) then Outcome(r, Response(400, Error("Invalid note data")))
    else if !dbUp then Outcome(r, Response(500, Error("Failed to save note")))
    else
      var id := r.nextId;
      var docs := r.docs[id := Document(body.value)];
      assert docs.Keys == r.docs.Keys + {id};
      Outcome(Remote(docs, id + 1), Response(200, Inserted(id)))
  }
}
