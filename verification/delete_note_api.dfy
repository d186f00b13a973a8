/** `DELETE /api/delete-note?id=…`: remove at most one note. */
module DeleteNoteApi {
  import opened Wrappers
  import opened Notes
  import opened RemoteStore
  import opened ObjectIds
  import opened Http

  datatype Outcome = Outcome(remote: Remote, response: Response)

  /** The handler; `dbUp` as for the save handler. */
  function Handle(verb: string, id: Option<string>, r: Remote, dbUp: bool): (out: Outcome)
    requires r.Valid()
    ensures out.remote.Valid() && out.remote.nextId == r.nextId
    ensures out.response.status in {200, 400, 404, 405, 500}
    ensures verb != "DELETE" ==> out == Outcome(r, MethodNotAllowed)
    ensures verb == "DELETE" && Falsy(id) ==> out == Outcome(r, Response(400, Error("Missing note ID")))
    ensures out.response.status == 200 <==>
      verb == "DELETE" && !Falsy(id) && dbUp && ParseId(id.value).Some? && ParseId(id.value).value in r.docs
    ensures out.response.status == 200 ==>
      out.remote.docs == r.docs - {ParseId(id.value).value} && |out.remote.docs| == |r.docs| - 1
    ensures out.response.status == 200 ==> out.response.reply == Message("Note deleted successfully")
    ensures verb == "DELETE" && !Falsy(id) && (!dbUp || ParseId(id.value).None?) ==>
      out == Outcome(r, Response(500, Error("Failed to delete note")))
    ensures verb == "DELETE" && !Falsy(id) && dbUp && ParseId(id.value).Some? && ParseId(id.value).value !in r.docs ==>
      out == Outcome(r, Response(404, Error("Note not found")))
    ensures out.response.status != 200 ==> out.remote == r
    ensures out.remote.docs.Keys <= r.docs.Keys
  {
    if verb != "DELETE" then Outcome(r, MethodNotAllowed)
    else if Falsy(id) then Outcome(r, Response(400, Error("Missing note ID")))
    else if !dbUp then Outcome(r, Response(500, Error("Failed to delete note")))
    else match ParseId(id.value)
      case None => Outcome(r, Response(500, Error("Failed to delete note")))
      case Some(key) =>
        if key in r.docs then
          var docs := r.docs - {key};
          assert docs.Keys == r.docs.Keys - {key};
          Outcome(Remote(docs, r.nextId), Response(200, Message("Note deleted successfully")))
        else
          Outcome(r, Response(404, Error("Note not found")))
  }
}
