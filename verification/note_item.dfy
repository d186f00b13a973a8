/**
 * The note card: its editing state, the `localId` guard on its delete and save
 * buttons, and the sync banner.
 */
module NoteItem {
  import opened Wrappers
  import opened Seqs
  import opened Tags
  import opened Notes

  /** Editing mode, the title being edited and the card's tag editor. */
  datatype Card = Card(editing: bool, title: string, editor: TagEditor)

  /** The card as first rendered for a note. */
  function Mount(n: Note): (c: Card)
    ensures !c.editing && c.title == n.title
    ensures c.editor.tags == n.TagList() && c.editor.input == ""
  {
    Card(false, n.title, TagEditor(n.TagList(), ""))
  }

  /** `handleEdit`: enter editing mode with the note's stored title. */
  function StartEdit(c: Card, n: Note): (r: Card)
    ensures r.editing && r.title == n.title && r.editor == c.editor
  {
    c.(editing := true, title := n.title)
  }

  /**
   * `handleCancel`: leave editing mode and restore the stored title. The tag
   * editor keeps whatever was done to it.
   */
  function Cancel(c: Card, n: Note): (r: Card)
    ensures !r.editing && r.title == n.title && r.editor == c.editor
  {
    c.(editing := false, title := n.title)
  }

  /** The store operation a button click asks `NoteList` for. */
  datatype Request =
    | NoRequest
    | DeleteRequest(localId: LocalId)
    | EditRequest(localId: LocalId, title: string, tags: seq<string>)

  /** `handleDelete`: calls through only when the note has a `localId`. */
  function DeleteClick(localId: Option<LocalId>): (r: Request)
    ensures r.NoRequest? <==> localId.None?
    ensures localId.Some? ==> r == DeleteRequest(localId.value)
  {
    match localId
    case None => NoRequest
    case Some(k) => DeleteRequest(k)
  }

  /**
   * `handleSave`: with a `localId`, sends the edited title and the card's tag
   * list (always given, so the stored tags are replaced) and leaves editing
   * mode; without one, nothing happens.
   */
  function SaveClick(c: Card, localId: Option<LocalId>): (r: (Card, Request))
    ensures localId.None? ==> r == (c, NoRequest)
    ensures localId.Some? ==>
      && r.1 == EditRequest(localId.value, c.title, c.editor.tags)
      && !r.0.editing && r.0.title == c.title && r.0.editor == c.editor
  {
    match localId
    case None => (c, NoRequest)
    case Some(k) => (c.(editing := false), EditRequest(k, c.title, c.editor.tags))
  }

  /** The three lines of the sync banner. */
  datatype Message = DeletionNotSynced | EditNotSynced | SubmissionNotSynced

  function Text(m: Message): string
  {
    match m
    case DeletionNotSynced => "Note deletion not synced"
    case EditNotSynced => "Note edit not synced"
    case SubmissionNotSynced => "Note submission not synced"
  }

  /** The condition guarding the banner. */
  predicate ShowsBanner(n: Note)
  {
    n.deleteSynced == Some(false) || n.editSynced == Some(false) || n.id.None?
  }

  /**
   * The banner's lines, in display order: each line appears exactly when its
   * own condition holds, and there is a line iff the banner shows.
   */
  function Messages(n: Note): (ms: seq<Message>)
    ensures DeletionNotSynced in ms <==> n.PendingDelete()
    ensures EditNotSynced in ms <==> n.PendingEdit()
    ensures SubmissionNotSynced in ms <==> n.id.None?
    ensures NoDup(ms)
    ensures ms != [] <==> ShowsBanner(n)
  {
    (if n.PendingDelete() then [DeletionNotSynced] else [])
      + (if n.PendingEdit() then [EditNotSynced] else [])
      + (if n.id.None? then [SubmissionNotSynced] else [])
  }

  /** `isSubmitted`: the card is styled as saved on the server. */
  function IsSubmitted(n: Note): (b: bool)
    ensures b <==> n.id.Some?
    ensures !b ==> ShowsBanner(n)
  {
    n.id != None
  }
}
