/**
 * The engine's three remote calls, each one request to the corresponding API
 * handler. `up` says whether the request reaches a server whose database
 * answers; when it does not, the call fails and nothing changes remotely,
 * exactly as when the handler answers 500.
 */
module Client {
  import opened Wrappers
  import opened Notes
  import opened RemoteStore
  import opened ObjectIds
  import opened Http
  import SaveNoteApi
  import EditNoteApi
  import DeleteNoteApi

  /** `JSON.stringify(createServerNote(note))` as the save handler reads it. */
  function SaveBodyOf(n: Note): SaveNoteApi.SaveBody
  {
    var p := ServerProjection(n);
    SaveNoteApi.SaveBody(Some(p.title), Some(p.localId), Some(p.createdAt), TagList(p.tags))
  }

  datatype Posted = Posted(remote: Remote, insertedId: Option<RemoteId>)

  /**
   * `fetch('/api/save-note', { method: 'POST', … })` followed by `response.ok`
   * and `data.insertedId`. It succeeds exactly when the server is reached and
   * the note has a non-empty title and localId; the stored document is then the
   * note's server projection under a never-used identifier.
   */
  function PostNote(r: Remote, n: Note, up: bool): (p: Posted)
    requires r.Valid()
    ensures p.remote.Valid()
    ensures p.insertedId.Some? <==> up && n.title != "" && n.localId != ""
    ensures p.insertedId.Some? ==>
      && p.insertedId == Some(r.nextId)
      && r.nextId !in r.docs
      && p.remote == Remote(r.docs[r.nextId := ServerProjection(n)], r.nextId + 1)
    ensures p.insertedId.None? ==> p.remote == r
  {
    var out := SaveNoteApi.Handle("POST", Some(SaveBodyOf(n)), r, up);
    if Success(out.response.status) then Posted(out.remote, Some(out.response.reply.insertedId))
    else Posted(out.remote, None)
  }

  /** The body `{ title, tags }`; `tags: undefined` is dropped by JSON serialisation. */
  function EditBodyOf(title: string, tags: Option<seq<string>>): EditNoteApi.EditBody
  {
    EditNoteApi.EditBody(EditNoteApi.Title(title), if tags.Some? then TagList(tags.value) else NoTags)
  }

  /** The stored document after a successful edit: new title, and new tags when sent. */
  function Edited(doc: ServerNote, title: string, tags: Option<seq<string>>): (d: ServerNote)
    ensures d.title == title && d.tags == tags.GetOr(doc.tags)
    ensures d.localId == doc.localId && d.createdAt == doc.createdAt
  {
    doc.(title := title, tags := tags.GetOr(doc.tags))
  }

  datatype Answer = Answer(remote: Remote, ok: bool)

  /**
   * `axios.put('/api/edit-note?id=' + id, { title, tags })`: resolves exactly
   * when the server is reached and holds a document with that identifier.
   */
  function PutNote(r: Remote, id: RemoteId, title: string, tags: Option<seq<string>>, up: bool): (a: Answer)
    requires r.Valid()
    ensures a.remote.Valid()
    ensures a.ok <==> up && id in r.docs
    ensures a.ok ==> a.remote == Remote(r.docs[id := Edited(r.docs[id], title, tags)], r.nextId)
    ensures !a.ok ==> a.remote == r
  {
    ParseIdText(id);
    var out := EditNoteApi.Handle("PUT", Some(IdText(id)), EditBodyOf(title, tags), r, up);
    Answer(out.remote, Success(out.response.status))
  }

  /**
   * `axios.delete('/api/delete-note?id=' + id)`: resolves exactly when the
   * server is reached and held a document with that identifier, now removed.
   */
  function DeleteRemote(r: Remote, id: RemoteId, up: bool): (a: Answer)
    requires r.Valid()
    ensures a.remote.Valid()
    ensures a.ok <==> up && id in r.docs
    ensures a.ok ==> a.remote == Remote(r.docs - {id}, r.nextId)
    ensures !a.ok ==> a.remote == r
  {
    ParseIdText(id);
    var out := DeleteNoteApi.Handle("DELETE", Some(IdText(id)), r, up);
    Answer(out.remote, Success(out.response.status))
  }
}
