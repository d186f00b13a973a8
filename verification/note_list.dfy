/**
 * The notes page: the tag union and the all-selected-tags filter over the
 * displayed notes, the filter toggle, and the handlers that run a card's
 * request against the stores.
 */
module NoteList {
  import opened Wrappers
  import opened Seqs
  import opened Tags
  import opened Notes
  import opened Sync
  import opened NoteForm
  import opened NoteItem

  /** `allTags`: each tag used by some note, once, in order of first use; missing tags count as none. */
  function AllTags(notes: seq<Note>): (r: seq<string>)
    ensures NoDup(r)
    ensures forall t :: t in r <==> exists i :: 0 <= i < |notes| && t in notes[i].TagList()
  {
    Dedup(FlatMap(notes, (n: Note) => n.TagList()))
  }

  /** `selectedTags.every(tag => note.tags && note.tags.includes(tag))`. */
  predicate HasAll(n: Note, selected: seq<string>)
  {
    forall t :: t in selected ==> n.tags.Some? && t in n.tags.value
  }

  /** The notes carrying every selected tag, in their order. */
  function Tagged(notes: seq<Note>, selected: seq<string>): (r: seq<Note>)
    ensures forall n :: n in r <==> n in notes && HasAll(n, selected)
    ensures forall n :: multiset(r)[n] == if HasAll(n, selected) then multiset(notes)[n] else 0
    ensures SubSeq(r, notes)
    decreases |notes|
  {
    if notes == [] then []
    else
      var rest := Tagged(notes[1..], selected);
      assert notes == [notes[0]] + notes[1..];
      if HasAll(notes[0], selected) then
        assert ([notes[0]] + rest)[1..] == rest;
        [notes[0]] + rest
      else rest
  }

  /**
   * `filteredNotes`: with no tag selected, every note in order; otherwise the
   * notes carrying every selected tag, as an order-preserving subsequence.
   * Tombstones are filtered like any other note.
   */
  function FilterNotes(notes: seq<Note>, selected: seq<string>): (r: seq<Note>)
    ensures selected == [] ==> r == notes
    ensures forall n :: n in r <==> n in notes && HasAll(n, selected)
    ensures forall n :: multiset(r)[n] == if HasAll(n, selected) then multiset(notes)[n] else 0
    ensures SubSeq(r, notes)
  {
    if selected == [] then
      SubSeqRefl(notes);
      notes
    else Tagged(notes, selected)
  }

  /** The shortcut for an empty selection is the general filter: every note passes it. */
  lemma {:induction false} EmptySelectionKeepsAll(notes: seq<Note>)
    ensures Tagged(notes, []) == notes
    decreases |notes|
  {
    if notes != [] {
      EmptySelectionKeepsAll(notes[1..]);
      assert HasAll(notes[0], []);
      assert Tagged(notes, []) == [notes[0]] + Tagged(notes[1..], []);
      assert notes == [notes[0]] + notes[1..];
    }
  }

  /**
   * `handleTagFilterChange`: a selected tag is deselected (all its
   * occurrences), any other tag is appended to the selection.
   */
  function Toggle(selected: seq<string>, tag: string): (r: seq<string>)
    ensures tag in r <==> tag !in selected
    ensures forall t :: t != tag ==> (t in r <==> t in selected)
    ensures tag !in selected ==> r == selected + [tag]
    ensures tag in selected ==> SubSeq(r, selected)
    ensures NoDup(selected) ==> NoDup(r)
  {
    if tag in selected then
      var r := Without(selected, tag);
      assert forall t :: t != tag ==> (t in r <==> t in selected) by {
        forall t | t != tag ensures t in r <==> t in selected {
          assert multiset(r)[t] == multiset(selected)[t];
        }
      }
      r
    else
      var r := selected + [tag];
      assert forall i :: 0 <= i < |selected| ==> r[i] == selected[i];
      r
  }

  /**
   * Toggling a tag twice restores the selected set; when the tag was not
   * selected it restores the selection exactly.
   */
  lemma ToggleTwice(selected: seq<string>, tag: string)
    ensures forall t :: t in Toggle(Toggle(selected, tag), tag) <==> t in selected
    ensures tag !in selected ==> Toggle(Toggle(selected, tag), tag) == selected
  {
    if tag !in selected {
      WithoutSnoc(selected, tag);
      WithoutAbsent(selected, tag);
    }
  }

  /** `handleNoteSubmit`: create the note from the form's draft and submit it. */
  function SubmitDraft(s: State, d: Draft, uuid: LocalId, now: Time, online: bool, up: bool): (s': State)
    requires s.Valid()
    ensures s'.Valid()
    ensures uuid in s'.local
    ensures s'.local[uuid].title == d.title && s'.local[uuid].TagList() == d.tags
    ensures s'.local[uuid].createdAt == now && !s'.local[uuid].PendingDelete() && !s'.local[uuid].PendingEdit()
    ensures forall k :: k in s.local && k != uuid ==> k in s'.local && s'.local[k] == s.local[k]
  {
    SubmitNote(s, CreateNote(d.title, Some(d.tags), uuid, now), online, up)
  }

  /** `handleNoteDelete` and `handleEditNote`: run a card's request against the stores. */
  function Perform(s: State, req: Request, online: bool, up: bool): (s': State)
    requires s.Valid()
    ensures s'.Valid()
    ensures req.NoRequest? ==> s' == s
    ensures req.DeleteRequest? ==> s' == DeleteNote(s, req.localId, online, up)
    ensures req.EditRequest? ==> s' == EditNote(s, req.localId, req.title, Some(req.tags), online, up)
  {
    match req
    case NoRequest => s
    case DeleteRequest(k) => DeleteNote(s, k, online, up)
    case EditRequest(k, title, tags) => EditNote(s, k, title, Some(tags), online, up)
  }

  /** What the page shows: the newest-first listing, filtered by the selected tags. */
  function Shown(local: LocalStore, order: seq<LocalId>, selected: seq<string>): (r: seq<Note>)
    requires Enumerates(order, local)
    ensures forall n :: n in r <==> n in local.Values && HasAll(n, selected)
  {
    FilterNotes(GetNotes(local, order), selected)
  }

  /**
   * A non-blank form submit stores the note as typed: once the page reloads
   * it is shown (when it carries the selected tags), its banner reports
   * exactly what is still unsynced, and it is styled as submitted iff the
   * server accepted it.
   */
  lemma SubmittedNoteShown(s: State, f: Form, uuid: LocalId, now: Time, online: bool, up: bool, order: seq<LocalId>, selected: seq<string>)
    requires s.Valid() && HandleSubmit(f).sent.Some?
    ensures var s' := SubmitDraft(s, HandleSubmit(f).sent.value, uuid, now, online, up);
      && s'.local[uuid].title == f.title
      && (Enumerates(order, s'.local) && HasAll(s'.local[uuid], selected) ==> s'.local[uuid] in Shown(s'.local, order, selected))
      && (IsSubmitted(s'.local[uuid]) <==> online && up && uuid != "")
      && Messages(s'.local[uuid]) == (if IsSubmitted(s'.local[uuid]) then [] else [SubmissionNotSynced])
  {
    var d := HandleSubmit(f).sent.value;
    var s' := SubmitDraft(s, d, uuid, now, online, up);
    assert f.title != "" by { assert !AllSpace(f.title); }
    assert s'.local[uuid] in s'.local.Values;
  }

  /**
   * Deleting a synced note offline does not hide it: its tombstone is still
   * shown wherever the note was, carrying the "deletion not synced" line.
   */
  lemma OfflineDeleteStillShown(s: State, k: LocalId, up: bool, order: seq<LocalId>, selected: seq<string>)
    requires s.Valid() && Enumerates(order, s.local)
    requires k in s.local && s.local[k].id.Some? && HasAll(s.local[k], selected)
    ensures var s' := Perform(s, DeleteClick(Some(k)), false, up);
      && k in s'.local
      && s'.local[k] in Shown(s'.local, order, selected)
      && DeletionNotSynced in Messages(s'.local[k])
      && IsSubmitted(s'.local[k])
  {
    var s' := Perform(s, DeleteClick(Some(k)), false, up);
    assert s'.local.Keys == s.local.Keys;
    assert s'.local[k] in s'.local.Values;
  }

  /**
   * Deleting a synced note online hides it at once, even when the request
   * never reaches the server: the note is no longer shown under any filter,
   * while the server's store is left as it was.
   */
  lemma FailedOnlineDeleteHidden(s: State, k: LocalId, order: seq<LocalId>, selected: seq<string>)
    requires s.Valid() && k in s.local && s.local[k].id.Some?
    ensures var s' := Perform(s, DeleteClick(Some(k)), true, false);
      && k !in s'.local
      && s'.remote == s.remote
      && (Enumerates(order, s'.local) ==> s.local[k] !in Shown(s'.local, order, selected))
  {
  }
}
