/**
 * The two delete paths of the client as evidently intended: a synced note
 * leaves the local store only once the server has confirmed its delete, or
 * once the server is known not to hold it. As written, `deleteNote` and
 * phase 3 of `refreshNotes` remove the local note before the remote call and
 * lose it when that call fails (see `Findings`).
 */
module Retained {
  import opened Wrappers
  import opened Notes
  import opened RemoteStore
  import opened Client
  import opened Sync
  import opened Reconcile

  /**
   * `deleteNote` with the remote delete sent first. The note leaves the local
   * store once the server answers, whether it removed the document or answered
   * 404 because it holds none; when the request does not reach the server
   * (offline, or the call fails) the note stays as a pending-delete tombstone.
   */
  function DeleteNoteRetained(s: State, localId: LocalId, online: bool, up: bool): (s': State)
    requires s.Valid()
    ensures s'.Valid()
    ensures localId !in s.local ==> s' == s
    ensures localId in s.local && s.local[localId].id.None? ==> s' == State(s.local - {localId}, s.remote)
    ensures localId in s.local && s.local[localId].id.Some? ==>
      var id := s.local[localId].id.value;
      if online && up then
        s' == State(s.local - {localId}, Remote(s.remote.docs - {id}, s.remote.nextId))
      else
        s' == State(s.local[localId := s.local[localId].(deleteSynced := Some(false))], s.remote)
  {
    if localId !in s.local then s
    else
      var note := s.local[localId];
      if note.id.None? then State(s.local - {localId}, s.remote)
      else
        var answer := DeleteRemote(s.remote, note.id.value, online && up);
        if online && up then State(s.local - {localId}, answer.remote)
        else State(Put(s.local, note.(deleteSynced := Some(false))), s.remote)
  }

  /**
   * Phase 3 for one note, with the remote delete sent first: a listed
   * tombstone is removed locally only once its delete succeeds, and a failed
   * delete still ends the pass, now with the tombstone kept. A tombstone whose
   * `_id` the listing no longer has is removed locally. Every other note is
   * pushed as `PushOne` does.
   */
  function PushOneRetained(n: Note, listing: seq<Listed>, s: State, down: set<Call>): (p: Progress)
    requires s.Valid()
    ensures p.state.Valid()
    ensures p.state.local.Keys <= s.local.Keys + {n.localId}
    ensures p.state.remote.docs.Keys <= s.remote.docs.Keys + {s.remote.nextId} && p.state.remote.nextId >= s.remote.nextId
    ensures n.PendingDelete() && n.id.Some? && n.id.value in Ids(listing) ==>
      var id := n.id.value;
      && p.aborted == !(DeleteCall(id) !in down && id in s.remote.docs)
      && p.state == (if p.aborted then s else State(s.local - {n.localId}, Remote(s.remote.docs - {id}, s.remote.nextId)))
    ensures n.PendingDelete() && n.id.Some? && n.id.value !in Ids(listing) ==>
      p == Progress(State(s.local - {n.localId}, s.remote), false)
    ensures !(n.PendingDelete() && n.id.Some?) ==> p == PushOne(n, listing, s, down)
  {
    if n.PendingDelete() && n.id.Some? then
      if FindListed(listing, n.id.value).Some? then
        var answer := DeleteRemote(s.remote, n.id.value, DeleteCall(n.id.value) !in down);
        if answer.ok then Progress(State(s.local - {n.localId}, answer.remote), false)
        else Progress(s, true)
      else Progress(State(s.local - {n.localId}, s.remote), false)
    else PushOne(n, listing, s, down)
  }

  /** The loop of phases 3 and 4 over the corrected step; it stops at the first aborting note. */
  function PushAllRetained(notes: seq<Note>, listing: seq<Listed>, s: State, down: set<Call>): (p: Progress)
    requires s.Valid()
    ensures p.state.Valid()
    ensures p.state.remote.nextId >= s.remote.nextId
    decreases |notes|
  {
    if notes == [] then Progress(s, false)
    else
      var p := PushOneRetained(notes[0], listing, s, down);
      if p.aborted then p else PushAllRetained(notes[1..], listing, p.state, down)
  }

  /** The corrected phases 3 and 4 add at most one remote note per local note. */
  lemma {:induction false} PushAllRetainedGrowth(notes: seq<Note>, listing: seq<Listed>, s: State, down: set<Call>)
    requires s.Valid()
    ensures |PushAllRetained(notes, listing, s, down).state.remote.docs| <= |s.remote.docs| + |notes|
    decreases |notes|
  {
    if notes != [] {
      var p := PushOneRetained(notes[0], listing, s, down);
      assert |p.state.remote.docs| <= |s.remote.docs| + 1 by {
        assert p.state.remote.docs.Keys <= s.remote.docs.Keys + {s.remote.nextId};
      }
      if !p.aborted {
        PushAllRetainedGrowth(notes[1..], listing, p.state, down);
      }
    }
  }

  /** `refreshNotes` with the corrected phase 3; every other phase is the one the pass runs. */
  function RefreshRetained(s: State, online: bool, order: seq<LocalId>, down: set<Call>, uuids: seq<LocalId>): (p: Pass)
    requires s.Valid() && Enumerates(order, s.local)
    requires FreshIds(uuids, s.local) && EnoughIds(uuids, s)
    ensures p.state.Valid()
    ensures !online || ListCall(0) in down ==> p == Pass(s, [], false)
    ensures online && ListCall(0) !in down ==>
      && p.conflicts == DetectConflicts(Snapshot(s.local, order), List(s.remote))
      && var pushed := PushAllRetained(Snapshot(s.local, order), List(s.remote), s, down);
         && p.completed == !(pushed.aborted || ListCall(1) in down)
         && (!p.completed ==> p.state == pushed.state)
  {
    if !online || ListCall(0) in down then Pass(s, [], false)
    else
      var snapshot := Snapshot(s.local, order);
      var listing := List(s.remote);
      var conflicts := DetectConflicts(snapshot, listing);
      var pushed := PushAllRetained(snapshot, listing, s, down);
      if pushed.aborted || ListCall(1) in down then Pass(pushed.state, conflicts, false)
      else
        PushAllRetainedGrowth(snapshot, listing, s, down);
        EnumerationSize(order, s.local);
        Pass(Pull(pushed.state, order, down, uuids), conflicts, true)
  }

  /** Over notes none of which is a synced tombstone, the corrected loop is the loop as written. */
  lemma {:induction false} PushAllRetainedAgrees(notes: seq<Note>, listing: seq<Listed>, s: State, down: set<Call>)
    requires s.Valid()
    requires forall i :: 0 <= i < |notes| ==> !(notes[i].PendingDelete() && notes[i].id.Some?)
    ensures PushAllRetained(notes, listing, s, down) == PushAll(notes, listing, s, down)
    decreases |notes|
  {
    if notes != [] {
      var p := PushOne(notes[0], listing, s, down);
      assert PushOneRetained(notes[0], listing, s, down) == p;
      if !p.aborted {
        PushAllRetainedAgrees(notes[1..], listing, p.state, down);
      }
    }
  }

  /**
   * The correction only touches synced tombstones: on a store holding none,
   * the corrected pass is the pass as written.
   */
  lemma RefreshRetainedAgrees(s: State, online: bool, order: seq<LocalId>, down: set<Call>, uuids: seq<LocalId>)
    requires s.Valid() && Enumerates(order, s.local)
    requires FreshIds(uuids, s.local) && EnoughIds(uuids, s)
    requires forall k :: k in s.local ==> !(s.local[k].PendingDelete() && s.local[k].id.Some?)
    ensures RefreshRetained(s, online, order, down, uuids) == Refresh(s, online, order, down, uuids)
  {
    if online && ListCall(0) !in down {
      PushAllRetainedAgrees(Snapshot(s.local, order), List(s.remote), s, down);
    }
  }
}
