/**
 * The optimistic mutations of the sync engine: each writes the local store
 * first and, when the device is online, makes one opportunistic remote call.
 * `online` is `navigator.onLine`; `up` is whether that call reaches the server.
 */
module Sync {
  import opened Wrappers
  import opened Notes
  import opened RemoteStore
  import opened Client

  /** Both stores. */
  datatype State = State(local: LocalStore, remote: Remote)
  {
    predicate Valid() { Keyed(local) && remote.Valid() }
  }

  /** `storeOfflineNote` / `editOfflineNote`: upsert by `localId`. */
  function Put(local: LocalStore, n: Note): (r: LocalStore)
    ensures r.Keys == local.Keys + {n.localId}
    ensures r[n.localId] == n
    ensures forall k :: k in local && k != n.localId ==> r[k] == local[k]
    ensures Keyed(local) ==> Keyed(r)
  {
    local[n.localId := n]
  }

  /**
   * `submitNote`: store the note, then, when online, post its server projection.
   * Only an accepted post gives the stored note the new `_id`.
   */
  function SubmitNote(s: State, note: Note, online: bool, up: bool): (s': State)
    requires s.Valid()
    ensures s'.Valid()
    ensures s'.local.Keys == s.local.Keys + {note.localId}
    ensures forall k :: k in s.local && k != note.localId ==> s'.local[k] == s.local[k]
    ensures var attached := online && up && note.title != "" && note.localId != "";
      && s'.local[note.localId] == (if attached then note.(id := Some(s.remote.nextId)) else note)
      && (attached ==> s'.remote == Remote(s.remote.docs[s.remote.nextId := ServerProjection(note)], s.remote.nextId + 1))
      && (!attached ==> s'.remote == s.remote)
  {
    var local := Put(s.local, note);
    if !online then State(local, s.remote)
    else
      var posted := PostNote(s.remote, note, up);
      match posted.insertedId
      case Some(id) => State(Put(local, note.(id := Some(id))), posted.remote)
      case None => State(local, posted.remote)
  }

  /**
   * `deleteNote`: a note the server never had is removed outright; a synced note
   * is removed and deleted remotely when online (a failed remote delete is not
   * retried), and kept as a pending-delete tombstone when offline.
   */
  function DeleteNote(s: State, localId: LocalId, online: bool, up: bool): (s': State)
    requires s.Valid()
    ensures s'.Valid()
    ensures localId !in s.local ==> s' == s
    ensures localId in s.local && s.local[localId].id.None? ==>
      s' == State(s.local - {localId}, s.remote)
    ensures localId in s.local && s.local[localId].id.Some? && online ==>
      var id := s.local[localId].id.value;
      && s'.local == s.local - {localId}
      && s'.remote == (if up && id in s.remote.docs then Remote(s.remote.docs - {id}, s.remote.nextId) else s.remote)
    ensures localId in s.local && s.local[localId].id.Some? && !online ==>
      s' == State(s.local[localId := s.local[localId].(deleteSynced := Some(false))], s.remote)
  {
    if localId !in s.local then s
    else
      var note := s.local[localId];
      if note.id.None? then State(s.local - {localId}, s.remote)
      else if online then
        State(s.local - {localId}, DeleteRemote(s.remote, note.id.value, up).remote)
      else
        State(Put(s.local, note.(deleteSynced := Some(false))), s.remote)
  }

  /** The note with the new title, and the new tags when they are given. */
  function Retitled(n: Note, title: string, tags: Option<seq<string>>): (m: Note)
    ensures m.title == title
    ensures m.tags == (if tags.Some? then tags else n.tags)
    ensures m.id == n.id && m.localId == n.localId && m.createdAt == n.createdAt
    ensures m.deleteSynced == n.deleteSynced && m.editSynced == n.editSynced
  {
    n.(title := title, tags := if tags.Some? then tags else n.tags)
  }

  /**
   * `editNote`: the title is always replaced, the tags only when given. A note
   * the server never had is only rewritten locally; otherwise the edit is sent
   * when online, and the pending-edit flag is cleared on success and set on
   * failure or when offline.
   */
  function EditNote(s: State, localId: LocalId, title: string, tags: Option<seq<string>>, online: bool, up: bool): (s': State)
    requires s.Valid()
    ensures s'.Valid()
    ensures localId !in s.local ==> s' == s
    ensures localId in s.local ==>
      var n := s.local[localId];
      var m := Retitled(n, title, tags);
      && s'.local.Keys == s.local.Keys
      && (forall k :: k in s.local && k != localId ==> s'.local[k] == s.local[k])
      && (n.id.None? ==> s' == State(s.local[localId := m], s.remote))
      && (n.id.Some? && online && up && n.id.value in s.remote.docs ==>
            && s'.local[localId] == m.(editSynced := None)
            && s'.remote.docs == s.remote.docs[n.id.value := Edited(s.remote.docs[n.id.value], title, m.tags)])
      && (n.id.Some? && !(online && up && n.id.value in s.remote.docs) ==>
            s' == State(s.local[localId := m.(editSynced := Some(false))], s.remote))
  {
    if localId !in s.local then s
    else
      var note := Retitled(s.local[localId], title, tags);
      if note.id.None? then State(Put(s.local, note), s.remote)
      else if online then
        var answer := PutNote(s.remote, note.id.value, title, note.tags, up);
        if answer.ok then State(Put(s.local, note.(editSynced := None)), answer.remote)
        else State(Put(s.local, note.(editSynced := Some(false))), answer.remote)
      else
        State(Put(s.local, note.(editSynced := Some(false))), s.remote)
  }
}
