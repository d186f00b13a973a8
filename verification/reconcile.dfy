/**
 * `refreshNotes`: one reconcile pass, as a sequence of pure phases over
 * snapshots of the two stores.
 *
 *   1. snapshot the local store and list the remote one;
 *   2. detect conflicts (observe only);
 *   3–4. push pending deletes and pending creates, note by note;
 *   5. re-snapshot both stores;
 *   6–7. for every listed remote note: attach or pull it, then resolve edits.
 *
 * The remote calls of a pass are identified by `Call`; `down` is the set of
 * calls that do not reach the server. A failed list, or a failed delete in
 * phase 3, throws out of the pass into its outer `catch`.
 */
module Reconcile {
  import opened Wrappers
  import opened Seqs
  import opened Sorting
  import opened Notes
  import opened RemoteStore
  import opened Client
  import opened Sync

  datatype Call =
    | ListCall(round: nat)
    | SaveCall(localId: LocalId)
    | EditCall(id: RemoteId)
    | DeleteCall(id: RemoteId)

  /** What the pass logs for a note edited on both sides. */
  datatype Conflict = Conflict(noteId: RemoteId, localTitle: string, serverTitle: string, localTags: seq<string>, serverTags: seq<string>)

  /** The pass's result; `completed` is false when it stopped in its `catch`. */
  datatype Pass = Pass(state: State, conflicts: seq<Conflict>, completed: bool)

  // ---------------------------------------------------------------------------
  // Phase 2: conflict detection
  // ---------------------------------------------------------------------------

  /**
   * The conflict reported for one local note: only a note with a pending edit
   * and an `_id` that is still listed is compared, by title and by its tags
   * sorted (so the order of tags does not matter).
   */
  function ConflictOf(n: Note, listing: seq<Listed>): (c: Option<Conflict>)
    ensures c.Some? <==>
      && n.PendingEdit() && n.id.Some?
      && FindListed(listing, n.id.value).Some?
      && (|| n.title != FindListed(listing, n.id.value).value.title
          || multiset(n.TagList()) != multiset(FindListed(listing, n.id.value).value.tags))
    ensures c.Some? ==>
      var doc := FindListed(listing, n.id.value).value;
      c.value == Conflict(n.id.value, n.title, doc.title, SortStrings(n.TagList()), SortStrings(doc.tags))
  {
    if n.PendingEdit() && n.id.Some? then
      match FindListed(listing, n.id.value)
      case None => None
      case Some(doc) =>
        var localTags := SortStrings(n.TagList());
        var serverTags := SortStrings(doc.tags);
        SortedCopiesEqual(n.TagList(), doc.tags);
        if n.title != doc.title || localTags != serverTags then
          Some(Conflict(n.id.value, n.title, doc.title, localTags, serverTags))
        else None
    else None
  }

  /** Phase 2 over the whole snapshot; it returns the log and changes no store. */
  function DetectConflicts(snapshot: seq<Note>, listing: seq<Listed>): (cs: seq<Conflict>)
    ensures |cs| <= |snapshot|
    decreases |snapshot|
  {
    if snapshot == [] then []
    else
      var rest := DetectConflicts(snapshot[1..], listing);
      match ConflictOf(snapshot[0], listing)
      case Some(c) => [c] + rest
      case None => rest
  }

  /** Every logged conflict comes from some snapshot note, and every conflicting note is logged. */
  lemma {:induction false} ConflictsReported(snapshot: seq<Note>, listing: seq<Listed>, c: Conflict)
    ensures c in DetectConflicts(snapshot, listing) <==>
      exists i :: 0 <= i < |snapshot| && ConflictOf(snapshot[i], listing) == Some(c)
    decreases |snapshot|
  {
    if snapshot != [] {
      ConflictsReported(snapshot[1..], listing, c);
      if i :| 0 <= i < |snapshot| && ConflictOf(snapshot[i], listing) == Some(c) {
        if i > 0 { assert snapshot[1..][i - 1] == snapshot[i]; }
      }
      if j :| 0 <= j < |snapshot[1..]| && ConflictOf(snapshot[1..][j], listing) == Some(c) {
        assert snapshot[j + 1] == snapshot[1..][j];
      }
    }
  }

  // ---------------------------------------------------------------------------
  // Phases 3 and 4: push pending deletes and creates
  // ---------------------------------------------------------------------------

  datatype Progress = Progress(state: State, aborted: bool)

  /**
   * One note of the loop over the first snapshot. A tombstone is removed
   * locally and then deleted remotely, but only when the first listing still
   * has its `_id`; a failure of that delete aborts the pass. A note without
   * `_id` is posted and, when accepted, stored again with the new `_id`.
   */
  function PushOne(n: Note, listing: seq<Listed>, s: State, down: set<Call>): (p: Progress)
    requires s.Valid()
    ensures p.state.Valid()
    ensures p.state.local.Keys <= s.local.Keys + {n.localId}
    ensures p.aborted <==>
      && n.PendingDelete() && n.id.Some? && n.id.value in Ids(listing)
      && !(DeleteCall(n.id.value) !in down && n.id.value in s.remote.docs)
    ensures n.PendingDelete() && n.id.Some? && n.id.value in Ids(listing) ==>
      var id := n.id.value;
      && p.state.local == s.local - {n.localId}
      && p.aborted == !(DeleteCall(id) !in down && id in s.remote.docs)
      && p.state.remote == (if p.aborted then s.remote else Remote(s.remote.docs - {id}, s.remote.nextId))
    ensures n.PendingDelete() && n.id.Some? && n.id.value !in Ids(listing) ==> p == Progress(s, false)
    ensures !(n.PendingDelete() && n.id.Some?) && n.id.None? ==>
      var accepted := SaveCall(n.localId) !in down && n.title != "" && n.localId != "";
      && !p.aborted
      && (accepted ==> p.state == State(Put(s.local, n.(id := Some(s.remote.nextId))),
                                         Remote(s.remote.docs[s.remote.nextId := ServerProjection(n)], s.remote.nextId + 1)))
      && (!accepted ==> p.state == s)
    ensures !(n.PendingDelete() && n.id.Some?) && n.id.Some? ==> p == Progress(s, false)
  {
    if n.PendingDelete() && n.id.Some? then
      if FindListed(listing, n.id.value).Some? then
        var local := s.local - {n.localId};
        var answer := DeleteRemote(s.remote, n.id.value, DeleteCall(n.id.value) !in down);
        Progress(State(local, answer.remote), !answer.ok)
      else Progress(s, false)
    else if n.id.None? then
      var posted := PostNote(s.remote, n, SaveCall(n.localId) !in down);
      match posted.insertedId
      case Some(id) => Progress(State(Put(s.local, n.(id := Some(id))), posted.remote), false)
      case None => Progress(State(s.local, posted.remote), false)
    else Progress(s, false)
  }

  /** The loop of phases 3 and 4; it stops at the first aborting note. */
  function PushAll(notes: seq<Note>, listing: seq<Listed>, s: State, down: set<Call>): (p: Progress)
    requires s.Valid()
    ensures p.state.Valid()
    ensures p.state.remote.nextId >= s.remote.nextId
    decreases |notes|
  {
    if notes == [] then Progress(s, false)
    else
      var p := PushOne(notes[0], listing, s, down);
      if p.aborted then p else PushAll(notes[1..], listing, p.state, down)
  }

  // ---------------------------------------------------------------------------
  // Phases 6 and 7: attach or pull remote notes, then resolve edits
  // ---------------------------------------------------------------------------

  /** Index of the first note with `_id == id` (`localNotes.find`). */
  function FindById(notes: seq<Note>, id: RemoteId): (r: Option<nat>)
    ensures r.Some? ==> r.value < |notes| && notes[r.value].id == Some(id)
    ensures r.Some? ==> forall j :: 0 <= j < r.value ==> notes[j].id != Some(id)
    ensures r.None? <==> forall j :: 0 <= j < |notes| ==> notes[j].id != Some(id)
    decreases |notes|
  {
    if notes == [] then None
    else if notes[0].id == Some(id) then Some(0)
    else match FindById(notes[1..], id)
      case Some(i) => Some(i + 1)
      case None => None
  }

  /** Index of the first note with the given `localId`. */
  function FindByLocalId(notes: seq<Note>, localId: LocalId): (r: Option<nat>)
    ensures r.Some? ==> r.value < |notes| && notes[r.value].localId == localId
    ensures r.Some? ==> forall j :: 0 <= j < r.value ==> notes[j].localId != localId
    ensures r.None? <==> forall j :: 0 <= j < |notes| ==> notes[j].localId != localId
    decreases |notes|
  {
    if notes == [] then None
    else if notes[0].localId == localId then Some(0)
    else match FindByLocalId(notes[1..], localId)
      case Some(i) => Some(i + 1)
      case None => None
  }

  /** A remote note stored locally for the first time, under a fresh `localId`. */
  function PulledNote(e: Listed, uuid: LocalId): (n: Note)
    ensures n.id == Some(e.id) && n.localId == uuid
    ensures n.title == e.note.title && n.tags == Some(e.note.tags) && n.createdAt == e.note.createdAt
    ensures !n.PendingDelete() && !n.PendingEdit()
  {
    Note(Some(e.id), uuid, None, None, e.note.title, e.note.createdAt, Some(e.note.tags))
  }

  /**
   * The snapshot array of phase 6, whose note objects the two helpers update in
   * place, and the local store they write through to.
   */
  datatype Pulled = Pulled(snap: seq<Note>, local: LocalStore)

  /**
   * `updateSavedNote`: nothing happens when a snapshot note already has the
   * remote `_id`. Otherwise the `_id` is attached to the snapshot note with the
   * same `localId`, or, when there is none, the remote note is stored under the
   * fresh `uuid`.
   */
  function UpdateSavedNote(e: Listed, snap: seq<Note>, local: LocalStore, uuid: LocalId): (r: Pulled)
    requires Keyed(local)
    ensures Keyed(r.local)
    ensures |r.snap| == |snap|
    ensures forall i :: 0 <= i < |snap| ==> r.snap[i].localId == snap[i].localId
    ensures FindById(snap, e.id).Some? ==> r == Pulled(snap, local)
    ensures FindById(snap, e.id).None? && FindByLocalId(snap, e.note.localId).Some? ==>
      var i := FindByLocalId(snap, e.note.localId).value;
      && r.snap == snap[i := snap[i].(id := Some(e.id))]
      && r.local == Put(local, snap[i].(id := Some(e.id)))
    ensures FindById(snap, e.id).None? && FindByLocalId(snap, e.note.localId).None? ==>
      r == Pulled(snap, Put(local, PulledNote(e, uuid)))
    ensures FindById(r.snap, e.id).Some? || (uuid in r.local && r.local[uuid] == PulledNote(e, uuid))
  {
    if FindById(snap, e.id).Some? then Pulled(snap, local)
    else match FindByLocalId(snap, e.note.localId)
      case Some(i) =>
        var attached := snap[i].(id := Some(e.id));
        assert snap[i := attached][i].id == Some(e.id);
        Pulled(snap[i := attached], Put(local, attached))
      case None =>
        Pulled(snap, Put(local, PulledNote(e, uuid)))
  }

  /**
   * `updateDeletedNote` (exported, not called by the pass): removes from the
   * store the first snapshot note carrying the remote `_id`.
   */
  function UpdateDeletedNote(id: RemoteId, snap: seq<Note>, local: LocalStore): (r: LocalStore)
    ensures FindById(snap, id).None? ==> r == local
    ensures FindById(snap, id).Some? ==>
      var k := snap[FindById(snap, id).value].localId;
      && r.Keys == local.Keys - {k}
      && forall j :: j in r ==> r[j] == local[j]
  {
    match FindById(snap, id)
    case None => local
    case Some(i) => local - {snap[i].localId}
  }

  /** Phase 6 and 7 state: the snapshot array and both stores. */
  datatype Merged = Merged(snap: seq<Note>, state: State)

  /** A stored note and a remote document agree on the user-editable fields. */
  predicate Agree(n: Note, doc: ServerNote)
  {
    n.title == doc.title && (n.tags.Some? ==> n.tags.value == doc.tags)
  }

  /**
   * `updateEditedNote`: for the snapshot note with the remote `_id`, a pending
   * local edit is pushed and its flag cleared only when the push succeeds (last
   * writer: local); otherwise the local title and tags are overwritten with the
   * remote ones (last writer: remote). When the listed note is the current
   * remote document and the push is not refused, the stored note and the
   * remote document agree afterwards and no edit is pending.
   */
  function UpdateEditedNote(e: Listed, snap: seq<Note>, s: State, down: set<Call>): (r: Merged)
    requires s.Valid()
    ensures r.state.Valid()
    ensures |r.snap| == |snap|
    ensures forall i :: 0 <= i < |snap| ==> r.snap[i].localId == snap[i].localId
    ensures r.state.remote.docs.Keys == s.remote.docs.Keys && r.state.remote.nextId == s.remote.nextId
    ensures FindById(snap, e.id).None? ==> r == Merged(snap, s)
    ensures FindById(snap, e.id).Some? ==>
      var i := FindById(snap, e.id).value;
      var m := snap[i];
      && (m.PendingEdit() && EditCall(e.id) !in down && e.id in s.remote.docs ==>
            var m' := m.(editSynced := None);
            && r.snap == snap[i := m']
            && r.state == State(Put(s.local, m'), Remote(s.remote.docs[e.id := Edited(s.remote.docs[e.id], m.title, m.tags)], s.remote.nextId)))
      && (m.PendingEdit() && !(EditCall(e.id) !in down && e.id in s.remote.docs) ==> r == Merged(snap, s))
      && (!m.PendingEdit() ==>
            var m' := m.(title := e.note.title, tags := Some(e.note.tags));
            r == Merged(snap[i := m'], State(Put(s.local, m'), s.remote)))
    ensures FindById(snap, e.id).Some? && e.id in s.remote.docs && s.remote.docs[e.id] == e.note ==>
      var m := snap[FindById(snap, e.id).value];
      (!m.PendingEdit() || EditCall(e.id) !in down) ==>
        && m.localId in r.state.local && e.id in r.state.remote.docs
        && Agree(r.state.local[m.localId], r.state.remote.docs[e.id])
        && !r.state.local[m.localId].PendingEdit()
  {
    match FindById(snap, e.id)
    case None => Merged(snap, s)
    case Some(i) =>
      var m := snap[i];
      if m.PendingEdit() then
        var answer := PutNote(s.remote, e.id, m.title, m.tags, EditCall(e.id) !in down);
        if answer.ok then
          var m' := m.(editSynced := None);
          Merged(snap[i := m'], State(Put(s.local, m'), answer.remote))
        else Merged(snap, s)
      else
        var m' := m.(title := e.note.title, tags := Some(e.note.tags));
        Merged(snap[i := m'], State(Put(s.local, m'), s.remote))
  }

  /** The loop of phases 6 and 7; the k-th listed note may use `uuids[k]`. */
  function PullAll(listing: seq<Listed>, snap: seq<Note>, s: State, down: set<Call>, uuids: seq<LocalId>): (r: Merged)
    requires s.Valid()
    requires |uuids| >= |listing|
    ensures r.state.Valid()
    ensures r.state.remote.nextId == s.remote.nextId
    ensures r.state.remote.docs.Keys == s.remote.docs.Keys
    decreases |listing|
  {
    if listing == [] then Merged(snap, s)
    else
      var saved := UpdateSavedNote(listing[0], snap, s.local, uuids[0]);
      var edited := UpdateEditedNote(listing[0], saved.snap, State(saved.local, s.remote), down);
      PullAll(listing[1..], edited.snap, edited.state, down, uuids[1..])
  }

  // ---------------------------------------------------------------------------
  // The pass
  // ---------------------------------------------------------------------------

  /** The key order restricted to the keys still present (IndexedDB lists in key order). */
  function Surviving(order: seq<LocalId>, local: LocalStore): (r: seq<LocalId>)
    ensures forall i :: 0 <= i < |r| ==> r[i] in local
    ensures forall k :: k in r <==> k in order && k in local
    ensures SubSeq(r, order)
    ensures (forall i :: 0 <= i < |order| ==> order[i] in local) ==> r == order
  {
    var present := k => k in local;
    var r := Filter(order, present);
    if forall i :: 0 <= i < |order| ==> order[i] in local then FilterAll(order, present); r else
    assert forall i :: 0 <= i < |r| ==> r[i] in local by {
      forall i | 0 <= i < |r| ensures r[i] in local {
        assert r[i] in r;
      }
    }
    r
  }

  /** The `crypto.randomUUID` values of a pass: distinct, and fresh for the store. */
  predicate FreshIds(uuids: seq<LocalId>, local: LocalStore)
  {
    && NoDup(uuids)
    && (forall i :: 0 <= i < |uuids| ==> uuids[i] !in local)
  }

  /** Enough fresh identifiers for every note the second listing can hold. */
  predicate EnoughIds(uuids: seq<LocalId>, s: State)
  {
    |uuids| >= |s.remote.docs| + |s.local|
  }

  /**
   * `refreshNotes`. Offline it does nothing. Otherwise phases run in order; a
   * failed listing or a failed tombstone delete ends the pass where it is.
   */
  function Refresh(s: State, online: bool, order: seq<LocalId>, down: set<Call>, uuids: seq<LocalId>): (p: Pass)
    requires s.Valid() && Enumerates(order, s.local)
    requires FreshIds(uuids, s.local) && EnoughIds(uuids, s)
    ensures p.state.Valid()
    ensures !online ==> p == Pass(s, [], false)
    ensures online && ListCall(0) in down ==> p == Pass(s, [], false)
    ensures online && ListCall(0) !in down ==>
      && p.conflicts == DetectConflicts(Snapshot(s.local, order), List(s.remote))
      && (PushAll(Snapshot(s.local, order), List(s.remote), s, down).aborted ==>
            p.state == PushAll(Snapshot(s.local, order), List(s.remote), s, down).state && !p.completed)
      && var pushed := PushAll(Snapshot(s.local, order), List(s.remote), s, down);
         && p.completed == !(pushed.aborted || ListCall(1) in down)
         && (!p.completed ==> p.state == pushed.state)
  {
    if !online || ListCall(0) in down then Pass(s, [], false)
    else
      var snapshot := Snapshot(s.local, order);
      var listing := List(s.remote);
      var conflicts := DetectConflicts(snapshot, listing);
      var pushed := PushAll(snapshot, listing, s, down);
      if pushed.aborted || ListCall(1) in down then Pass(pushed.state, conflicts, false)
      else
        SecondListingFits(s, order, down, uuids);
        Pass(Pull(pushed.state, order, down, uuids), conflicts, true)
  }

  /** Phases 5 to 7: re-snapshot both stores, then attach, pull and resolve edits. */
  function Pull(s2: State, order: seq<LocalId>, down: set<Call>, uuids: seq<LocalId>): (r: State)
    requires s2.Valid()
    requires |uuids| >= |s2.remote.docs|
    ensures r.Valid()
    ensures r.remote.docs.Keys == s2.remote.docs.Keys && r.remote.nextId == s2.remote.nextId
  {
    var listing2 := List(s2.remote);
    RemoteSizeBound(s2, listing2);
    PullAll(listing2, Snapshot(s2.local, Surviving(order, s2.local)), s2, down, uuids).state
  }

  lemma SecondListingFits(s: State, order: seq<LocalId>, down: set<Call>, uuids: seq<LocalId>)
    requires s.Valid() && Enumerates(order, s.local)
    requires EnoughIds(uuids, s)
    ensures |uuids| >= |PushAll(Snapshot(s.local, order), List(s.remote), s, down).state.remote.docs|
  {
    PushAllGrowth(Snapshot(s.local, order), List(s.remote), s, down);
    EnumerationSize(order, s.local);
  }

  /** Phases 3 and 4 add at most one remote note per local note. */
  lemma {:induction false} PushAllGrowth(notes: seq<Note>, listing: seq<Listed>, s: State, down: set<Call>)
    requires s.Valid()
    ensures |PushAll(notes, listing, s, down).state.remote.docs| <= |s.remote.docs| + |notes|
    decreases |notes|
  {
    if notes != [] {
      var p := PushOne(notes[0], listing, s, down);
      assert |p.state.remote.docs| <= |s.remote.docs| + 1 by {
        if notes[0].PendingDelete() && notes[0].id.Some? && notes[0].id.value in Ids(listing) {
          assert p.state.remote.docs.Keys <= s.remote.docs.Keys;
        } else {
          assert p.state.remote.docs.Keys <= s.remote.docs.Keys + {s.remote.nextId};
        }
      }
      if !p.aborted {
        PushAllGrowth(notes[1..], listing, p.state, down);
      }
    }
  }

  lemma RemoteSizeBound(s: State, listing: seq<Listed>)
    requires s.remote.Valid()
    requires listing == List(s.remote)
    ensures |listing| == |s.remote.docs|
  {
    var ids := set i | 0 <= i < |listing| :: listing[i].id;
    assert ids == s.remote.docs.Keys by {
      forall id | id in s.remote.docs ensures id in ids {
        var i :| 0 <= i < |Ids(listing)| && Ids(listing)[i] == id;
        assert listing[i].id == id;
      }
    }
    DistinctCardinality(Ids(listing));
    assert ids == set i | 0 <= i < |Ids(listing)| :: Ids(listing)[i];
  }
}
