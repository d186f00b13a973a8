/** `PUT /api/edit-note?id=…`: replace a note's title and, when given, its tags. */
module EditNoteApi {
  import opened Wrappers
  import opened Notes
  import opened RemoteStore
  import opened ObjectIds
  import opened Http

  /** A `title` field whose JSON type the handler tests with `typeof … === 'string'`. */
  datatype TitleField = NoTitle | Title(text: string) | NotAString

  datatype EditBody = EditBody(title: TitleField, tags: TagsField)

  datatype Outcome = Outcome(remote: Remote, response: Response)

  /** The update object applied with `$set`: always the title, the tags only when sent. */
  function Updated(doc: ServerNote, title: string, tags: TagsField): (r: ServerNote)
    ensures r.title == title
    ensures r.localId == doc.localId && r.createdAt == doc.createdAt
    ensures tags.NoTags? ==> r.tags == doc.tags
    ensures tags.TagList? ==> r.tags == tags.tags
    ensures tags.NotAList? ==> r.tags == []
  {
    if tags.NoTags? then doc.(title := title)
    else doc.(title := title, tags := if tags.TagList? then tags.tags else [])
  }

  /** The handler; `dbUp` as for the save handler. */
  function Handle(verb: string, id: Option<string>, body: EditBody, r: Remote, dbUp: bool): (out: Outcome)
    requires r.Valid()
    ensures out.remote.Valid() && out.remote.nextId == r.nextId
    ensures out.response.status in {200, 400, 404, 405, 500}
    ensures verb != "PUT" ==> out == Outcome(r, MethodNotAllowed)
    ensures out.response.status == 400 <==> verb == "PUT" && (Falsy(id) || !body.title.Title?)
    ensures out.response.status == 400 ==> out.response.reply == Error("Missing note ID or title")
    ensures out.response.status == 200 <==>
      && verb == "PUT" && !Falsy(id) && body.title.Title? && dbUp
      && ParseId(id.value).Some? && ParseId(id.value).value in r.docs
    ensures out.response.status == 200 ==>
      var key := ParseId(id.value).value;
      out.remote.docs == r.docs[key := Updated(r.docs[key], body.title.text, body.tags)]
    ensures out.response.status == 200 ==> out.response.reply == Message("Note edited successfully")
    ensures verb == "PUT" && !Falsy(id) && body.title.Title? && (!dbUp || ParseId(id.value).None?) ==>
      out == Outcome(r, Response(500, Error("Failed to edit note")))
    ensures verb == "PUT" && !Falsy(id) && body.title.Title? && dbUp && ParseId(id.value).Some? && ParseId(id.value).value !in r.docs ==>
      out == Outcome(r, Response(404, Error("Note not found")))
    ensures out.response.status != 200 ==> out.remote == r
  {
    if verb != "PUT" then Outcome(r, MethodNotAllowed)
    else if Falsy(id) || !body.title.Title? then Outcome(r, Response(400, Error("Missing note ID or title")))
    else if !dbUp then Outcome(r, Response(500, Error("Failed to edit note")))
    else match ParseId(id.value)
      case None => Outcome(r, Response(500, Error("Failed to edit note")))
      case Some(key) =>
        if key in r.docs then
          var docs := r.docs[key := Updated(r.docs[key], body.title.text, body.tags)];
          Outcome(Remote(docs, r.nextId), Response(200, Message("Note edited successfully")))
        else
          Outcome(r, Response(404, Error("Note not found")))
  }

  /** An empty title is a string, so it is accepted. */
  lemma EmptyTitleAccepted(id: RemoteId, tags: TagsField, r: Remote)
    requires r.Valid() && id in r.docs
    ensures Handle("PUT", Some(IdText(id)), EditBody(Title(""), tags), r, true).response.status == 200
  {
    ParseIdText(id);
  }
}
