# Offline-first notes: a Dafny model of the sync core

This project models the core of an offline-first notes application.

- **Notes are written locally first.** The browser keeps notes in a local key-value store keyed by `localId`, which is a client-generated UUID.
- **A server keeps a document collection.** Documents are keyed by `_id`, the server's ObjectId.
- **Operations that reach the server when it is online.** Creating, editing and deleting a note try the server immediately when the browser believes it is online.
- **Tombstones and pending edits.** If that attempt cannot happen, the note is marked for later:
  - a pending delete is `localDeleteSynced === false` (a tombstone);
  - a pending edit is `localEditSynced === false`.
- **Reconciliation.** `refreshNotes` reconciles the two stores in one pass:
  1. snapshot both stores;
  2. report conflicts;
  3. push tombstones and unsynced creates;
  4. re-snapshot both stores;
  5. attach, pull or merge every server note.

The model covers:

- **Client sync library (`src/utils/notes.ts`):**
  - `Notes`: the note record, the server projection and `getNotes`.
  - `Sync`: `submitNote`, `deleteNote` and `editNote`.
  - `Reconcile`: `refreshNotes`, which includes `updateSavedNote`, `updateEditedNote` and `updateDeletedNote`.
- **The three API handlers (`SaveNoteApi`, `EditNoteApi`, `DeleteNoteApi`).** Each is over a modelled document collection (`RemoteStore`). The listing order of `GET /api/notes` is in `RemoteStore.List`.
- **Pure logic of the three React components:**
  - `Tags`: tag entry and `trim`;
  - `NoteForm`: the creation form;
  - `NoteItem`: a note card, its requests and its "not synced" banner;
  - `NoteList`: tag list, tag filter, toggling and the handlers that call the sync library.
- **Laws about the reconcile pass (`ReconcileLaws`):**
  - a settled store is a fixed point;
  - a completed pass removes every listed tombstone for good;
  - an offline delete followed by an online refresh deletes the note on both sides.
- **Two defects in the delete paths (`Findings`)** and their corrected versions:
  - `Retained` holds the corrected `deleteNote` and the corrected push phase;
  - `RetainedLaws` holds the proof that a deleted note is never resurrected, over any sequence of passes.

## How the environment is modelled

- **Stores:**
  - The local store is a `map<LocalId, Note>`.
  - Enumerating it (`getOfflineNotes`) yields some order of its keys, given as a parameter `order` with `Enumerates(order, local)`.
  - The server collection is `Remote(docs, nextId)`. An insert takes `nextId`, because ObjectIds are never reused.
- **Connectivity and failures:**
  - `navigator.onLine` is a parameter `online`.
  - Whether a single request reaches the server is a parameter: `up` for one request, or `down: set<Call>` for the requests of a reconcile pass.
  - A request that does not reach the server changes nothing on the server.
- **Identifiers, time and database:**
  - `crypto.randomUUID()` values are parameters. They are `uuid` for `createNote`, and a sequence `uuids` of fresh, distinct ids for the pass.
  - `new Date()` is a parameter `now`. Dates are integers (`Time`).
  - The database's availability is the handlers' `dbUp` parameter.
- **ObjectId text:**
  - An ObjectId travels in the query string as text.
  - `ObjectIds.IdText` and `ObjectIds.ParseId` model it as decimal digits. Malformed text makes `new ObjectId` throw, which gives status 500.
- **Calls from the client go through the modelled handlers (`Client`):**
  - `PostNote` is `fetch` plus `response.ok`.
  - `PutNote` and `DeleteRemote` model `axios`. Axios throws on every non-2xx status, so a 404 counts as a failure.

## Model

| member | source | states |
|---|---|---|
| Notes.CreateNote | src/utils/notes.ts:20-27 | a new note carries the given title, the fresh localId and the creation time, defaults missing tags to the empty list, and has no server id and no pending flags |
| Notes.ServerProjection | src/utils/notes.ts:29-36 | the body sent to the server keeps title, localId and createdAt, replaces absent tags by the empty list, and carries no client-only field |
| Notes.ProjectionIgnoresClientFields | src/utils/notes.ts:29-36 | the server body does not depend on `_id` or on the two sync flags |
| Notes.Snapshot | src/utils/notes.ts:165 | the snapshot of the store lists exactly the stored note of each enumerated key, in enumeration order |
| Notes.GetNotes | src/utils/notes.ts:232-238 | the result is a permutation of the stored notes (each stored note appears, nothing else does) sorted newest first |
| Notes.GetNotesStable | src/utils/notes.ts:234-236 | notes with equal creation time keep the store's enumeration order (the sort is stable) |
| Sorting.SortDescStable | src/utils/notes.ts:234-236 | the insertion sort used for both listings keeps the relative order of equal keys |
| Sorting.SortedCopiesEqual | src/utils/notes.ts:173-176 | two tag lists have equal sorted copies exactly when they hold the same multiset of tags, so the conflict check ignores tag order |
| Sync.Put | src/utils/notes.ts:52 | storing a note adds or replaces its key and leaves every other stored note unchanged |
| Sync.SubmitNote | src/utils/notes.ts:38-60 | the note is always stored; the server gets the projection under a fresh id, and the stored note is attached to that id, exactly when online, the request succeeds and title and localId are non-empty; otherwise the server is unchanged |
| Sync.DeleteNote | src/utils/notes.ts:62-83 | a missing key changes nothing; a note without `_id` is removed locally; online, the note is removed locally and the server copy is removed only if the request succeeds; offline, the note stays as a tombstone |
| Sync.Retitled | src/utils/notes.ts:90-91 | the new title is set, tags are replaced only when new tags are given, and identity and flags are kept |
| Sync.EditNote | src/utils/notes.ts:85-115 | a note without `_id` is edited locally only; a successful online edit updates the server document and clears the pending flag; any other case (offline, request failure, 404) stores the edit as pending; other notes are untouched |
| RemoteStore.List | src/pages/api/notes.js:6 | the listing contains each document exactly once with its stored content, newest `createdAt` first |
| RemoteStore.FindListed | src/utils/notes.ts:171 | a listed note is found by id exactly when its id is listed, and the note found is the listed one |
| ObjectIds.ParseId | src/pages/api/delete-note.js:15 | query text is accepted as an id exactly when it is non-empty and well formed |
| ObjectIds.ParseIdText | src/utils/notes.ts:72 | the id text the client puts in the query string parses back to the same id |
| ObjectIds.IdTextInjective | src/utils/notes.ts:196 | distinct ids never share a query-string text |
| SaveNoteApi.NormalizeTags | src/pages/api/save-note.js:17-19 | an array of tags is kept; anything else becomes the empty array |
| SaveNoteApi.Document | src/pages/api/save-note.js:5-20 | the inserted document is the request body with its tags normalised |
| SaveNoteApi.Handle | src/pages/api/save-note.js:2-30 | only POST is allowed (405); a body lacking a truthy title, localId or createdAt gives 400; a database failure gives 500; status 200 happens exactly when the body is valid and the database is up, and then the document is inserted under a fresh id that is returned |
| EditNoteApi.Updated | src/pages/api/edit-note.js:17-20 | the update sets the title, keeps the tags when none are sent, and sets them to the sent array or to the empty array when a non-array is sent |
| EditNoteApi.Handle | src/pages/api/edit-note.js:2-38 | only PUT is allowed; a missing id or non-string title gives 400; status 200 happens exactly when the id parses and names a document and the database is up, and then only that document changes and the reply says it was edited; a well-formed request whose id does not parse, or that meets a database failure, gives 500 and changes nothing; an unknown id gives 404 and changes nothing |
| EditNoteApi.EmptyTitleAccepted | src/pages/api/edit-note.js:8-10 | an empty-string title passes the handler's validation and is stored |
| DeleteNoteApi.Handle | src/pages/api/delete-note.js:2-29 | only DELETE is allowed; a missing id gives 400; status 200 happens exactly when the id parses and names a document and the database is up, and then exactly that document is removed and the reply says it was deleted; an id that does not parse, or a database failure, gives 500 and changes nothing; an unknown id gives 404 and changes nothing |
| Client.PostNote | src/utils/notes.ts:43-51 | the client learns a new id exactly when the request arrives and the handler accepts the projection; the id is the one the server inserted |
| Client.Edited | src/utils/notes.ts:97-100 | the edit body sets the title and sends the given tags or else the note's current ones, and the server keeps localId and createdAt |
| Client.PutNote | src/utils/notes.ts:97-100 | an edit request succeeds exactly when it arrives and the id exists; a failure leaves the server unchanged |
| Client.DeleteRemote | src/utils/notes.ts:72 | a delete request succeeds exactly when it arrives and the id exists, and then removes exactly that document |
| Reconcile.ConflictOf | src/utils/notes.ts:169-187 | a conflict is reported for a note exactly when it has a pending edit and a listed `_id` and its title or its tag multiset differs from the server's; the report carries both titles and both sorted tag lists |
| Reconcile.DetectConflicts | src/utils/notes.ts:169-189 | at most one conflict is reported per local note |
| Reconcile.ConflictsReported | src/utils/notes.ts:169-189 | a conflict is in the pass's report exactly when some snapshot note yields it |
| Reconcile.PushOne | src/utils/notes.ts:191-216 | a listed tombstone is removed locally and then deleted on the server; the pass aborts exactly when that delete fails; an unlisted tombstone and an attached note are skipped; an unattached note is posted and attached on success and left as it is otherwise |
| Reconcile.PushAll | src/utils/notes.ts:191-217 | pushing keeps the stores well formed and never reuses a server id |
| Reconcile.FindById | src/utils/notes.ts:118 | the lookup returns the first snapshot note with the given `_id`, and returns none exactly when no note has it |
| Reconcile.FindByLocalId | src/utils/notes.ts:121 | the lookup returns the first snapshot note with the given localId, and returns none exactly when no note has it |
| Reconcile.PulledNote | src/utils/notes.ts:126-127 | a pulled server note is stored under the fresh localId with the server's id, title, tags and createdAt and with no pending flag |
| Reconcile.UpdateSavedNote | src/utils/notes.ts:117-130 | a note whose id is known changes nothing; otherwise the first note with its localId is attached to it, and failing that the server note is stored under a fresh localId; afterwards the id is carried by the snapshot or by the new note |
| Reconcile.UpdateDeletedNote | src/utils/notes.ts:154-159 | exactly the first local note carrying the id is removed, and nothing else changes |
| Reconcile.UpdateEditedNote | src/utils/notes.ts:132-152 | an unknown id changes nothing; a pending edit is pushed to the server and cleared if the request succeeds, and kept otherwise; a note without a pending edit takes the server's title and tags; when the listing is current, after the step local and server agree and no edit is pending |
| Reconcile.PullAll | src/utils/notes.ts:223-226 | pulling and merging never adds or removes a server document |
| Reconcile.Surviving | src/utils/notes.ts:219 | the second snapshot enumerates the surviving keys in the same order, and equals the first when nothing was removed |
| Reconcile.Refresh | src/utils/notes.ts:161-230 | offline, or with a failed first listing, the pass does nothing; otherwise it reports the conflicts of the first snapshot and completes exactly when no tombstone delete fails and the second listing succeeds; a pass that stops (failed delete or failed second listing) keeps the state the push phase reached |
| ReconcileLaws.CompletedUnfolds | src/utils/notes.ts:219-226 | a pass that completes ran the push phase to the end and then the second half of the pass on the pushed stores, with enough fresh ids for the second listing |
| Reconcile.Pull | src/utils/notes.ts:219-226 | the second half of the pass keeps the stores well formed, leaves the set of server documents unchanged and hands out no new server id |
| Reconcile.PushAllGrowth | src/utils/notes.ts:191-217 | pushing adds at most one server document per local note |
| Reconcile.RemoteSizeBound | src/pages/api/notes.js:6 | the listing has exactly as many entries as the collection has documents |
| ReconcileLaws.PushAllSplit | src/utils/notes.ts:191-217 | pushing a concatenation pushes the first part, then the second part only if the first did not abort |
| ReconcileLaws.AbortSkipsRest | src/utils/notes.ts:195-196 | once a tombstone delete fails, no later note of the snapshot is pushed |
| ReconcileLaws.SavedNoteCarried | src/utils/notes.ts:117-130 | after `updateSavedNote` some local note carries the server note's id |
| ReconcileLaws.SavedNoteIdempotent | src/utils/notes.ts:117-130 | applying `updateSavedNote` again to a fresh snapshot changes nothing |
| ReconcileLaws.DeletedNoteGone | src/utils/notes.ts:154-159 | when ids are unique, no local note carries the deleted id afterwards |
| ReconcileLaws.NoConflictsWithoutEdits | src/utils/notes.ts:170 | with no pending edit, no conflict is reported |
| ReconcileLaws.PushAllIdle | src/utils/notes.ts:191-217 | attached notes without tombstones push nothing |
| ReconcileLaws.PullIdle | src/utils/notes.ts:219-226 | on a settled state the second half of the pass changes nothing |
| ReconcileLaws.SettledRefreshIdle | src/utils/notes.ts:161-230 | a state where every note is attached, clean and equal to its server document, and every document is held locally, is a fixed point of the pass with no conflicts, whatever fails |
| ReconcileLaws.SnapshotDistinct | src/utils/notes.ts:165 | a snapshot has distinct localIds, and distinct ids when the store has |
| ReconcileLaws.PushAllRemoves | src/utils/notes.ts:192-197 | a listed tombstone is gone from both sides once the push phase finishes without aborting |
| ReconcileLaws.PullAllKeepsGone | src/utils/notes.ts:223-226 | the pull phase does not bring back a note whose server document is gone |
| ReconcileLaws.CompletedPassDeletes | src/utils/notes.ts:161-230 | a pass that completes removes a listed tombstone from the local store and from the server, and leaves no local note carrying its id |
| ReconcileLaws.CompletedPassKeepsGone | src/utils/notes.ts:161-230 | a pass that completes does not resurrect a note already deleted on both sides |
| ReconcileLaws.PushAllCompletes | src/utils/notes.ts:191-217 | when no request fails and listed ids are on the server, the push phase does not abort |
| ReconcileLaws.PassCompletes | src/utils/notes.ts:161-230 | when no request fails and local ids are unique, the pass runs to the end |
| ReconcileLaws.OfflineDeleteThenRefresh | src/utils/notes.ts:76-78 | an offline delete leaves a tombstone, and the next failure-free online pass deletes the note on both sides for good |
| Tags.Trim | src/components/NoteForm.tsx:75-77 | trimming yields the empty string exactly for blank input; otherwise it is the slice between the first and last non-space character |
| Tags.TrimCharacterized | src/components/NoteForm.tsx:75-77 | spaces around a core that starts and ends with non-space trim to exactly that core |
| Tags.TrimIdempotent | src/components/NoteForm.tsx:77 | trimming twice equals trimming once |
| Tags.KeyDown | src/components/NoteForm.tsx:74-83 | Enter or comma with non-blank input appends the trimmed tag unless it is already present and clears the input; any other key changes nothing; tags stay duplicate-free |
| Tags.Without | src/components/NoteForm.tsx:85-87 | removal drops every copy of the tag, keeps every other tag with its count and order, and keeps tags duplicate-free |
| Tags.WithoutAbsent | src/components/NoteForm.tsx:85-87 | removing an absent tag changes nothing |
| Tags.AddThenRemove | src/components/NoteItem.tsx:242-255 | adding a new tag and then removing it restores the tag list |
| Tags.RunKeepsClean | src/components/NoteItem.tsx:242-255 | any sequence of typing, key presses and removals keeps the tag list duplicate-free and its tags trimmed and non-empty |
| NoteForm.HandleSubmit | src/components/NoteForm.tsx:89-100 | a blank title sends nothing and keeps the form; otherwise the title and tags are sent unchanged and the form is reset |
| NoteForm.SentTagsClean | src/components/NoteForm.tsx:74-100 | every submitted tag list is duplicate-free with trimmed, non-empty tags |
| NoteItem.Mount | src/components/NoteItem.tsx:201-204 | a card starts out not editing, with the note's title and tags and an empty tag input |
| NoteItem.StartEdit | src/components/NoteItem.tsx:224-227 | editing starts from the note's current title and keeps the tag editor |
| NoteItem.Cancel | src/components/NoteItem.tsx:258-261 | cancelling restores the title but keeps edited tags |
| NoteItem.DeleteClick | src/components/NoteItem.tsx:207-222 | a delete request is issued exactly when the note has a localId, for that localId |
| NoteItem.SaveClick | src/components/NoteItem.tsx:229-236 | with a localId the card sends its title and tags and leaves edit mode; without one nothing happens |
| NoteItem.Messages | src/components/NoteItem.tsx:376-395 | each banner line appears exactly when its condition holds, none twice, and the banner is shown exactly when some line is |
| NoteItem.IsSubmitted | src/components/NoteItem.tsx:278 | a card is drawn as submitted exactly when the note has a server id, and otherwise it shows the banner |
| NoteList.AllTags | src/components/NoteList.tsx:113-117 | the tag list holds each tag used by some note exactly once |
| NoteList.Tagged | src/components/NoteList.tsx:122-124 | the filter keeps, in order, exactly the notes carrying every selected tag, each as many times as it occurs |
| NoteList.FilterNotes | src/components/NoteList.tsx:120-124 | an empty selection shows every note; otherwise exactly the notes carrying all selected tags are shown, in order and each as many times as it occurs |
| NoteList.EmptySelectionKeepsAll | src/components/NoteList.tsx:120-124 | filtering by no tag keeps every note |
| NoteList.Toggle | src/components/NoteList.tsx:183-189 | toggling flips the tag's membership, keeps every other tag, appends a new tag at the end, and keeps the selection duplicate-free |
| NoteList.ToggleTwice | src/components/NoteList.tsx:183-189 | toggling a tag twice restores the selection |
| NoteList.SubmitDraft | src/components/NoteList.tsx:126-130 | a submitted draft is stored under the fresh localId with its title, tags and creation time and no pending flag; other notes are untouched |
| NoteList.Perform | src/components/NoteList.tsx:132-140 | a card's edit request runs `editNote` with the card's title and tags, its delete request runs `deleteNote` as written, and no request changes nothing |
| NoteList.Shown | src/components/NoteList.tsx:220-224 | the list shows exactly the stored notes carrying all selected tags |
| NoteList.SubmittedNoteShown | src/components/NoteList.tsx:126-130 | a submitted note is shown under a matching filter, and shows the "submission not synced" banner exactly when it did not reach the server |
| NoteList.OfflineDeleteStillShown | src/components/NoteList.tsx:132-135 | a synced note deleted offline is still listed under every filter it matched, drawn as submitted and carrying the "deletion not synced" banner |
| NoteList.FailedOnlineDeleteHidden | src/components/NoteList.tsx:132-135 | a synced note deleted online is no longer listed under any filter even when its request fails, while the server's store is left as it was |
| Findings.FailedOnlineDeleteResurrects | src/utils/notes.ts:69-74 | a note deleted online whose delete request fails is gone locally but comes back, under a new localId, after the next refresh |
| Findings.AbortedDeleteResurrects | src/utils/notes.ts:191-197 | a tombstone whose delete fails during a refresh is already gone locally when the pass stops, the server keeps the document, and the next refresh stores it again under a new localId |
| Findings.AbortedRetainedDeleteKept | src/utils/notes.ts:191-197 | with the corrected push phase the same failing delete leaves the tombstone and the server document in place, and the next refresh with no failure removes both |
| Retained.DeleteNoteRetained | src/utils/notes.ts:62-83 | corrected delete: a note without `_id` is removed locally; a synced note is removed locally exactly when its request reaches the server, which then removes the document or holds none (404); otherwise it is kept as a tombstone |
| Retained.PushOneRetained | src/utils/notes.ts:191-197 | corrected push step: a listed tombstone is removed locally only together with a successful server delete, and a failed delete ends the pass with the tombstone kept; a tombstone the listing no longer has is removed locally; every other note is pushed as before |
| Retained.PushAllRetainedAgrees | src/utils/notes.ts:191-217 | over notes with no synced tombstone, the corrected push loop is the loop as written |
| Retained.PushAllRetainedGrowth | src/utils/notes.ts:191-217 | the corrected push loop adds at most one server document per local note |
| Retained.RefreshRetained | src/utils/notes.ts:161-230 | the corrected pass does nothing offline or with a failed first listing; otherwise it reports the conflicts of the first snapshot and completes exactly when the corrected push loop does not abort and the second listing succeeds |
| Retained.RefreshRetainedAgrees | src/utils/notes.ts:161-230 | on stores holding no synced tombstone, the corrected pass is the pass as written |
| RetainedLaws.PushOneDoomed | src/utils/notes.ts:191-217 | one corrected push step keeps a deleted note either a tombstone that alone carries its `_id`, or gone from both stores with no note carrying the `_id`; the tombstone's own step, unless it aborts, makes it gone |
| RetainedLaws.PushAllDoomed | src/utils/notes.ts:191-217 | the corrected push loop keeps a deleted note doomed and a gone note gone, and, run to the end over a read holding the tombstone, makes it gone |
| RetainedLaws.PassKeepsDoomed | src/utils/notes.ts:161-230 | one corrected pass, whichever calls fail, keeps a deleted note doomed and a gone note gone; a pass that completes leaves it gone from both stores |
| RetainedLaws.PassesKeepDoomed | src/utils/notes.ts:161-230 | over any sequence of corrected passes a deleted note stays doomed, and from the first pass that completes on it is gone from both stores |
| RetainedLaws.RetainedDeleteSticks | src/utils/notes.ts:62-83 | after the corrected delete, in any network condition, followed by any sequence of corrected passes whichever of their calls fail, no note other than the tombstone ever carries the deleted `_id`, a removed note is never stored again, and from the first pass that completes on the note is gone from both stores |

## Left out

- The IndexedDB helpers (`public/indexeddb`) are not part of this model. `storeOfflineNote` and `editOfflineNote` are modelled as an upsert by localId, and `deleteOfflineNote` as a removal.
- The MongoDB connection helper (`src/utils/mongo.ts`) and the style files are left out: they are I/O plumbing and CSS constants. The database is the abstract collection plus the `dbUp` parameter.
- Concurrency is left out. Nothing prevents two `refreshNotes` passes from overlapping, but each pass is modelled as one sequential transformation.
- Logging (`console.*`), React rendering, styling, the loading spinner and `isSyncing` flags, the service-worker registration and the `online` event listeners are left out: they do not affect stored data.
- `fetchNotes` (NoteList.tsx:142-152) is `Reconcile.Refresh` followed by `Notes.GetNotes`; it has no member of its own.
- A request whose effect reaches the server while its response is lost is not modelled. A failed request changes nothing on the server.
- Real ObjectIds are 24 hex digits. They are modelled as decimal text of a natural number, so only the parse succeeds/fails distinction is kept.
- JavaScript string ordering (UTF-16 code units) in the tag sort is modelled as lexicographic order on characters. The in-place `sort()` on the stored tag arrays is modelled as a sorted copy: the mutation is never written back.
- `Date` values and their JSON round trip are modelled as integer timestamps.
- Reconcile.Refresh: requires enough fresh UUIDs for every note the pass may pull (`EnoughIds`). The source draws them on demand.
- Reconcile.PushAll: states that the stores stay well formed and that server ids are not reused. What happens to each note is stated by `PushOne`, `PushAllSplit` and the `ReconcileLaws` lemmas instead.
- Reconcile.PullAll: states only that the set of server documents is unchanged. Per-note effects are stated by `UpdateSavedNote`, `UpdateEditedNote` and the `ReconcileLaws` lemmas.
- Reconcile.Pull: does not promise that afterwards every listed document is carried by exactly one local note. That does not hold in general: attaching by localId can overwrite the `_id` a local note already carries. What the phase does keep is stated by `PullKeepsGone` and `SavedNoteCarried`.
- RetainedLaws.PassesKeepDoomed: covers passes run back to back, with no user action between them. Each pass's oracles must fit the stores it meets (`Fits`), and the fresh UUIDs never reuse the deleted note's localId.
- RetainedLaws.RetainedDeleteSticks: requires that no two local notes share an `_id` and that the deleted `_id` was handed out by the server. Both hold for stores built by the client, but the model does not prove that.
- Reconcile.DetectConflicts: its contract bounds the size; membership is stated by `ConflictsReported`.
- NoteItem's `note.localId !== undefined` guard is modelled by an `Option<LocalId>` argument. Stored notes always carry a localId.

## Behaviour worth knowing

The model follows the code in each of these cases.

- **Attaching in phase 6.** It matches a server note to a local note by localId. It does not check that the local note lacks an `_id`.
- **Pending deletes are still displayed** (with a banner). They are not hidden from the list.
- **A failing tombstone delete in the push phase aborts the whole pass.** It does not merely skip that note, because the `axios.delete` there is not wrapped in its own `try`.
- **`!note._id` is modelled as "no `_id`".** On the client, `_id` is the JSON string `data.insertedId` (src/utils/notes.ts:50). That string is a non-empty hex string, so it is always truthy.
- **The edit handler accepts an empty-string title** (`EditNoteApi.EmptyTitleAccepted`). The save handler rejects one.
- **`updateDeletedNote` is exported but never called by the pass.** It is modelled and proved on its own.

## Findings

| source | as written | input that shows it | evidently intended | confidence | as-written member | corrected member |
|---|---|---|---|---|---|---|
| src/utils/notes.ts:69-74 | online, `deleteNote` removes the local note before sending the delete request, and on failure only logs | a synced note "a" with `_id` 0; an online delete whose request fails; then one refresh with no failures and fresh id "b": the server still has document 0, so the refresh stores it again as note "b" with the old title | a note whose server delete did not reach the server is kept as a tombstone (`localDeleteSynced = false`), as the offline branch does, so a later refresh retries the delete | not executed | Findings.FailedOnlineDeleteResurrects | RetainedLaws.RetainedDeleteSticks |
| src/utils/notes.ts:195-196 | in the push phase, a tombstone is removed locally before its delete request is sent, and a failing request throws out of the pass | "a" with `_id` 0 deleted offline; a refresh whose listing succeeds but whose delete of 0 fails; then a refresh with no failures and fresh id "b": the first pass stops with "a" gone and document 0 kept, and the second stores 0 again as "b" | the delete request is sent first and the tombstone removed only once it succeeds, so a failed delete leaves the tombstone for the next pass | not executed | Findings.AbortedDeleteResurrects | RetainedLaws.PassKeepsDoomed |

`Sync.DeleteNote` and `Reconcile.PushOne` keep the code as written, and the rest of the model (`NoteList.Perform` included) uses them. The corrected definitions are in `Retained`:

- `DeleteNoteRetained` sends the delete first. It removes the note locally once the server has answered, and otherwise keeps a tombstone.
- `PushOneRetained` swaps the two awaits of the push phase. It also drops a tombstone whose `_id` the listing no longer has; as written, such a tombstone stays forever.

`RetainedLaws.RetainedDeleteSticks` proves that the corrected definitions never resurrect a deleted note, over any sequence of passes.
