/**
 * Laws of the reconcile pass: the abort of phase 3, the idempotence of
 * `updateSavedNote`, `updateDeletedNote`, and the pass being
 * a no-op on a settled pair of stores.
 */
module ReconcileLaws {
  import opened Wrappers
  import opened Seqs
  import opened Notes
  import opened RemoteStore
  import opened Client
  import opened Sync
  import opened Reconcile

  // ---------------------------------------------------------------------------
  // Phase 3 abort
  // ---------------------------------------------------------------------------

  /** Running phases 3–4 over `a + b` is running them over `a`, then over `b` unless `a` aborted. */
  lemma {:induction false} PushAllSplit(a: seq<Note>, b: seq<Note>, listing: seq<Listed>, s: State, down: set<Call>)
    requires s.Valid()
    ensures PushAll(a + b, listing, s, down) ==
      var p := PushAll(a, listing, s, down);
      if p.aborted then p else PushAll(b, listing, p.state, down)
    decreases |a|
  {
    if a == [] {
      assert a + b == b;
    } else {
      assert (a + b)[0] == a[0];
      assert (a + b)[1..] == a[1..] + b;
      var p := PushOne(a[0], listing, s, down);
      if !p.aborted {
        PushAllSplit(a[1..], b, listing, p.state, down);
      }
    }
  }

  /**
   * When the i-th note's remote delete fails, the notes after it are never
   * visited: the loop's result is the state right after that note.
   */
  lemma AbortSkipsRest(notes: seq<Note>, i: nat, listing: seq<Listed>, s: State, down: set<Call>)
    requires s.Valid() && i < |notes|
    requires !PushAll(notes[..i], listing, s, down).aborted
    requires PushOne(notes[i], listing, PushAll(notes[..i], listing, s, down).state, down).aborted
    ensures PushAll(notes, listing, s, down) ==
      PushOne(notes[i], listing, PushAll(notes[..i], listing, s, down).state, down)
  {
    assert notes == notes[..i] + notes[i..];
    PushAllSplit(notes[..i], notes[i..], listing, s, down);
  }

  // ---------------------------------------------------------------------------
  // updateSavedNote
  // ---------------------------------------------------------------------------

  /** Some stored note carries the remote `_id`. */
  predicate Carries(local: LocalStore, id: RemoteId)
  {
    exists k :: k in local && local[k].id == Some(id)
  }

  /** Every snapshot note is the note stored under its `localId`. */
  predicate SnapOf(snap: seq<Note>, local: LocalStore)
  {
    forall i :: 0 <= i < |snap| ==> snap[i].localId in local && local[snap[i].localId] == snap[i]
  }

  /** After `updateSavedNote`, some stored note carries the remote `_id`. */
  lemma SavedNoteCarried(e: Listed, snap: seq<Note>, local: LocalStore, uuid: LocalId)
    requires Keyed(local) && SnapOf(snap, local)
    ensures Carries(UpdateSavedNote(e, snap, local, uuid).local, e.id)
  {
    var r := UpdateSavedNote(e, snap, local, uuid);
    match FindById(snap, e.id)
    case Some(i) =>
      assert local[snap[i].localId].id == Some(e.id);
    case None =>
      match FindByLocalId(snap, e.note.localId)
      case Some(i) =>
        assert r.local[snap[i].localId].id == Some(e.id);
      case None =>
        assert r.local[uuid].id == Some(e.id);
  }

  /** A read of a store that carries the `_id` finds it, so `updateSavedNote` does nothing. */
  lemma CarriedFound(local: LocalStore, order: seq<LocalId>, id: RemoteId)
    requires Enumerates(order, local) && Carries(local, id)
    ensures FindById(Snapshot(local, order), id).Some?
  {
    var k :| k in local && local[k].id == Some(id);
    var j :| 0 <= j < |order| && order[j] == k;
    assert Snapshot(local, order)[j].id == Some(id);
  }

  /**
   * Re-running `updateSavedNote` for the same remote note against any fresh
   * read of the store it produced changes nothing.
   */
  lemma SavedNoteIdempotent(e: Listed, snap: seq<Note>, local: LocalStore, uuid: LocalId, order: seq<LocalId>, uuid2: LocalId)
    requires Keyed(local) && SnapOf(snap, local)
    requires Enumerates(order, UpdateSavedNote(e, snap, local, uuid).local)
    ensures
      var r := UpdateSavedNote(e, snap, local, uuid);
      var snap2 := Snapshot(r.local, order);
      UpdateSavedNote(e, snap2, r.local, uuid2) == Pulled(snap2, r.local)
  {
    var r := UpdateSavedNote(e, snap, local, uuid);
    SavedNoteCarried(e, snap, local, uuid);
    CarriedFound(r.local, order, e.id);
  }

  // ---------------------------------------------------------------------------
  // updateDeletedNote
  // ---------------------------------------------------------------------------

  /** No two stored notes carry the same remote `_id`. */
  predicate UniqueIds(local: LocalStore)
  {
    forall j, k :: j in local && k in local && local[j].id.Some? && local[j].id == local[k].id ==> j == k
  }

  /**
   * On a full read of a store whose `_id`s are unique, `updateDeletedNote`
   * leaves no stored note carrying that `_id`.
   */
  lemma DeletedNoteGone(id: RemoteId, local: LocalStore, order: seq<LocalId>)
    requires Keyed(local) && Enumerates(order, local) && UniqueIds(local)
    ensures !Carries(UpdateDeletedNote(id, Snapshot(local, order), local), id)
  {
    var snap := Snapshot(local, order);
    var r := UpdateDeletedNote(id, snap, local);
    match FindById(snap, id)
    case None =>
      forall k | k in local ensures local[k].id != Some(id) {
        var j :| 0 <= j < |order| && order[j] == k;
        assert snap[j] == local[k];
      }
    case Some(i) =>
      assert local[snap[i].localId] == snap[i];
      forall k | k in r ensures r[k].id != Some(id) {
        assert r[k] == local[k];
      }
  }

  // ---------------------------------------------------------------------------
  // A settled pair of stores
  // ---------------------------------------------------------------------------

  /** A stored note in step with the remote store: nothing pending, same title and tags. */
  predicate Clean(n: Note, r: Remote)
  {
    && n.id.Some? && !n.PendingDelete() && !n.PendingEdit()
    && n.id.value in r.docs
    && n.title == r.docs[n.id.value].title && n.tags == Some(r.docs[n.id.value].tags)
  }

  /** Every stored note is in step, and every remote note is stored. */
  predicate Settled(s: State)
  {
    && (forall k :: k in s.local ==> Clean(s.local[k], s.remote))
    && (forall id :: id in s.remote.docs ==> Carries(s.local, id))
  }

  /** Without pending edits, conflict detection logs nothing. */
  lemma {:induction false} NoConflictsWithoutEdits(snapshot: seq<Note>, listing: seq<Listed>)
    requires forall i :: 0 <= i < |snapshot| ==> !snapshot[i].PendingEdit()
    ensures DetectConflicts(snapshot, listing) == []
    decreases |snapshot|
  {
    if snapshot != [] {
      NoConflictsWithoutEdits(snapshot[1..], listing);
    }
  }

  /** Phases 3–4 do nothing when every note has an `_id` and none is a tombstone. */
  lemma {:induction false} PushAllIdle(notes: seq<Note>, listing: seq<Listed>, s: State, down: set<Call>)
    requires s.Valid()
    requires forall i :: 0 <= i < |notes| ==> notes[i].id.Some? && !notes[i].PendingDelete()
    ensures PushAll(notes, listing, s, down) == Progress(s, false)
    decreases |notes|
  {
    if notes != [] {
      PushAllIdle(notes[1..], listing, s, down);
    }
  }

  /** Phases 6–7 do nothing when every listed note is already stored, in step. */
  lemma {:induction false} PullAllIdle(listing: seq<Listed>, snap: seq<Note>, s: State, down: set<Call>, uuids: seq<LocalId>)
    requires s.Valid() && |uuids| >= |listing|
    requires SnapOf(snap, s.local)
    requires forall i :: 0 <= i < |snap| ==> Clean(snap[i], s.remote)
    requires forall i :: 0 <= i < |listing| ==>
      && listing[i].id in s.remote.docs && s.remote.docs[listing[i].id] == listing[i].note
      && FindById(snap, listing[i].id).Some?
    ensures PullAll(listing, snap, s, down, uuids) == Merged(snap, s)
    decreases |listing|
  {
    if listing != [] {
      var e := listing[0];
      var i := FindById(snap, e.id).value;
      var m := snap[i];
      assert Clean(m, s.remote);
      assert m.(title := e.note.title, tags := Some(e.note.tags)) == m;
      assert snap[i := m] == snap;
      assert Put(s.local, m) == s.local;
      assert UpdateEditedNote(e, snap, s, down) == Merged(snap, s);
      PullAllIdle(listing[1..], snap, s, down, uuids[1..]);
    }
  }

  /** Phases 5–7 do nothing on settled stores. */
  lemma PullIdle(s: State, order: seq<LocalId>, down: set<Call>, uuids: seq<LocalId>)
    requires s.Valid() && Enumerates(order, s.local) && Settled(s)
    requires |uuids| >= |s.remote.docs|
    ensures Pull(s, order, down, uuids) == s
  {
    var snapshot := Snapshot(s.local, order);
    var listing := List(s.remote);
    assert Surviving(order, s.local) == order;
    SettledSnapshot(s, order);
    SettledListingFound(s, order);
    RemoteSizeBound(s, listing);
    PullAllIdle(listing, snapshot, s, down, uuids);
  }

  lemma SettledSnapshot(s: State, order: seq<LocalId>)
    requires s.Valid() && Enumerates(order, s.local) && Settled(s)
    ensures SnapOf(Snapshot(s.local, order), s.local)
    ensures forall i :: 0 <= i < |order| ==> Clean(Snapshot(s.local, order)[i], s.remote)
  {
    var snapshot := Snapshot(s.local, order);
    forall i | 0 <= i < |snapshot| ensures Clean(snapshot[i], s.remote) && snapshot[i].localId in s.local && s.local[snapshot[i].localId] == snapshot[i] {
      assert snapshot[i] == s.local[order[i]];
    }
  }

  lemma SettledListingFound(s: State, order: seq<LocalId>)
    requires s.Valid() && Enumerates(order, s.local) && Settled(s)
    ensures forall i :: 0 <= i < |List(s.remote)| ==>
      && List(s.remote)[i].id in s.remote.docs && s.remote.docs[List(s.remote)[i].id] == List(s.remote)[i].note
      && FindById(Snapshot(s.local, order), List(s.remote)[i].id).Some?
  {
    var listing := List(s.remote);
    forall i | 0 <= i < |listing| ensures FindById(Snapshot(s.local, order), listing[i].id).Some? {
      CarriedFound(s.local, order, listing[i].id);
    }
  }

  /**
   * On settled stores a pass changes nothing and logs nothing, whatever the
   * network does: a settled pair of stores is a fixed point of the pass.
   */
  lemma SettledRefreshIdle(s: State, online: bool, order: seq<LocalId>, down: set<Call>, uuids: seq<LocalId>)
    requires s.Valid() && Enumerates(order, s.local)
    requires FreshIds(uuids, s.local) && EnoughIds(uuids, s)
    requires Settled(s)
    ensures Refresh(s, online, order, down, uuids).state == s
    ensures Refresh(s, online, order, down, uuids).conflicts == []
  {
    if online && ListCall(0) !in down {
      var snapshot := Snapshot(s.local, order);
      forall i | 0 <= i < |snapshot| ensures snapshot[i].id.Some? && !snapshot[i].PendingDelete() && !snapshot[i].PendingEdit() {
        assert snapshot[i] == s.local[order[i]];
      }
      NoConflictsWithoutEdits(snapshot, List(s.remote));
      PushAllIdle(snapshot, List(s.remote), s, down);
      if ListCall(1) !in down {
        PullIdle(s, order, down, uuids);
      }
    }
  }

  // ---------------------------------------------------------------------------
  // Pending deletes
  // ---------------------------------------------------------------------------

  /** No two notes of a read share a `localId`. */
  predicate DistinctLocalIds(notes: seq<Note>)
  {
    forall i, j :: 0 <= i < j < |notes| ==> notes[i].localId != notes[j].localId
  }

  /** No two notes of a read share a remote `_id`. */
  predicate DistinctIds(notes: seq<Note>)
  {
    forall i, j :: 0 <= i < j < |notes| && notes[i].id.Some? ==> notes[i].id != notes[j].id
  }

  /** A read of a keyed store in a duplicate-free key order has distinct `localId`s. */
  lemma SnapshotDistinct(local: LocalStore, order: seq<LocalId>)
    requires Keyed(local) && Enumerates(order, local)
    ensures DistinctLocalIds(Snapshot(local, order))
    ensures UniqueIds(local) ==> DistinctIds(Snapshot(local, order))
  {
    var snap := Snapshot(local, order);
    forall i, j | 0 <= i < j < |snap| ensures snap[i].localId != snap[j].localId {
      assert order[i] != order[j];
    }
  }

  /** No stored note other than the one under `k` carries the remote `_id`. */
  predicate CarriedOnlyBy(local: LocalStore, id: RemoteId, k: LocalId)
  {
    forall j :: j in local && j != k ==> local[j].id != Some(id)
  }

  /**
   * One note of phases 3–4 other than `k` gives no other note the `_id`: new
   * remote notes get identifiers at or above `nextId`.
   */
  lemma PushOneKeepsCarrier(n: Note, listing: seq<Listed>, s: State, down: set<Call>, k: LocalId, id: RemoteId)
    requires s.Valid() && n.localId != k
    requires id < s.remote.nextId && CarriedOnlyBy(s.local, id, k)
    ensures var q := PushOne(n, listing, s, down);
      id < q.state.remote.nextId && CarriedOnlyBy(q.state.local, id, k)
  {
    var q := PushOne(n, listing, s, down);
    forall j | j in q.state.local && j != k ensures q.state.local[j].id != Some(id) {
      if j != n.localId {
        assert q.state.local[j] == s.local[j];
      }
    }
  }

  /**
   * Phases 3–4 never bring back a `localId` no remaining note has, nor a
   * remote `_id` already removed, neither as a remote note nor on a stored one.
   */
  lemma {:induction false} PushAllKeepsGone(notes: seq<Note>, listing: seq<Listed>, s: State, down: set<Call>, k: LocalId, id: RemoteId)
    requires s.Valid()
    requires k !in s.local && id !in s.remote.docs && id < s.remote.nextId && CarriedOnlyBy(s.local, id, k)
    requires forall i :: 0 <= i < |notes| ==> notes[i].localId != k
    ensures var p := PushAll(notes, listing, s, down);
      && k !in p.state.local && id !in p.state.remote.docs && id < p.state.remote.nextId
      && CarriedOnlyBy(p.state.local, id, k)
    decreases |notes|
  {
    if notes != [] {
      var q := PushOne(notes[0], listing, s, down);
      PushOneKeepsCarrier(notes[0], listing, s, down, k, id);
      if !q.aborted {
        PushAllKeepsGone(notes[1..], listing, q.state, down, k, id);
      }
    }
  }

  /**
   * A listed tombstone of the read is gone from both stores after phases 3–4,
   * unless the loop aborted; when it was the only note with its `_id`, no
   * stored note carries that `_id` any more.
   */
  lemma {:induction false} PushAllRemoves(notes: seq<Note>, j: nat, listing: seq<Listed>, s: State, down: set<Call>)
    requires s.Valid() && j < |notes| && DistinctLocalIds(notes)
    requires notes[j].PendingDelete() && notes[j].id.Some? && notes[j].id.value in Ids(listing)
    requires notes[j].id.value < s.remote.nextId && CarriedOnlyBy(s.local, notes[j].id.value, notes[j].localId)
    ensures var p := PushAll(notes, listing, s, down);
      !p.aborted ==>
        && notes[j].localId !in p.state.local && notes[j].id.value !in p.state.remote.docs
        && CarriedOnlyBy(p.state.local, notes[j].id.value, notes[j].localId)
    decreases j
  {
    var q := PushOne(notes[0], listing, s, down);
    if !q.aborted {
      if j == 0 {
        PushAllKeepsGone(notes[1..], listing, q.state, down, notes[0].localId, notes[0].id.value);
      } else {
        PushOneKeepsCarrier(notes[0], listing, s, down, notes[j].localId, notes[j].id.value);
        assert notes[1..][j - 1] == notes[j];
        PushAllRemoves(notes[1..], j - 1, listing, q.state, down);
      }
    }
  }

  /**
   * Phases 6–7 never store a `localId` that neither the read nor the fresh
   * identifiers hold, never recreate a remote note, and never give a stored
   * note an `_id` that is not listed.
   */
  lemma {:induction false} PullAllKeepsGone(listing: seq<Listed>, snap: seq<Note>, s: State, down: set<Call>, uuids: seq<LocalId>, k: LocalId, id: RemoteId)
    requires s.Valid() && |uuids| >= |listing|
    requires k !in s.local && id !in s.remote.docs && CarriedOnlyBy(s.local, id, k)
    requires forall i :: 0 <= i < |snap| ==> snap[i].localId != k
    requires forall i :: 0 <= i < |uuids| ==> uuids[i] != k
    requires forall i :: 0 <= i < |listing| ==> listing[i].id != id
    ensures var r := PullAll(listing, snap, s, down, uuids);
      k !in r.state.local && id !in r.state.remote.docs && CarriedOnlyBy(r.state.local, id, k)
    decreases |listing|
  {
    if listing != [] {
      var e := listing[0];
      var saved := UpdateSavedNote(e, snap, s.local, uuids[0]);
      SavedKeepsGone(e, snap, s.local, uuids[0], k, id);
      var edited := UpdateEditedNote(e, saved.snap, State(saved.local, s.remote), down);
      EditedKeepsGone(e, saved.snap, State(saved.local, s.remote), down, k, id);
      PullAllKeepsGone(listing[1..], edited.snap, edited.state, down, uuids[1..], k, id);
    }
  }

  lemma SavedKeepsGone(e: Listed, snap: seq<Note>, local: LocalStore, uuid: LocalId, k: LocalId, id: RemoteId)
    requires Keyed(local) && k !in local && CarriedOnlyBy(local, id, k)
    requires uuid != k && e.id != id
    requires forall i :: 0 <= i < |snap| ==> snap[i].localId != k
    ensures var saved := UpdateSavedNote(e, snap, local, uuid);
      k !in saved.local && CarriedOnlyBy(saved.local, id, k)
  {
    var saved := UpdateSavedNote(e, snap, local, uuid);
    if FindById(snap, e.id).None? {
      match FindByLocalId(snap, e.note.localId)
      case Some(i) =>
        assert saved.local.Keys == local.Keys + {snap[i].localId};
        forall j | j in saved.local && j != k ensures saved.local[j].id != Some(id) {
          if j != snap[i].localId { assert saved.local[j] == local[j]; }
        }
      case None =>
        assert saved.local.Keys == local.Keys + {uuid};
        forall j | j in saved.local && j != k ensures saved.local[j].id != Some(id) {
          if j != uuid { assert saved.local[j] == local[j]; }
        }
    }
  }

  lemma EditedKeepsGone(e: Listed, snap: seq<Note>, s: State, down: set<Call>, k: LocalId, id: RemoteId)
    requires s.Valid() && k !in s.local && CarriedOnlyBy(s.local, id, k) && e.id != id
    requires forall i :: 0 <= i < |snap| ==> snap[i].localId != k
    ensures var edited := UpdateEditedNote(e, snap, s, down);
      k !in edited.state.local && CarriedOnlyBy(edited.state.local, id, k)
  {
    var edited := UpdateEditedNote(e, snap, s, down);
    match FindById(snap, e.id)
    case Some(i) =>
      assert edited.state.local.Keys <= s.local.Keys + {snap[i].localId};
      forall j | j in edited.state.local && j != k ensures edited.state.local[j].id != Some(id) {
        if j != snap[i].localId { assert edited.state.local[j] == s.local[j]; }
      }
    case None =>
  }

  /** Phases 5–7 keep a removed note removed, in both stores and as an `_id` on a stored note. */
  lemma PullKeepsGone(s2: State, order: seq<LocalId>, down: set<Call>, uuids: seq<LocalId>, k: LocalId, id: RemoteId)
    requires s2.Valid() && |uuids| >= |s2.remote.docs|
    requires k !in s2.local && id !in s2.remote.docs && CarriedOnlyBy(s2.local, id, k)
    requires forall i :: 0 <= i < |uuids| ==> uuids[i] != k
    ensures var r := Pull(s2, order, down, uuids);
      k !in r.local && id !in r.remote.docs && !Carries(r.local, id)
  {
    var listing2 := List(s2.remote);
    RemoteSizeBound(s2, listing2);
    var snap2 := Snapshot(s2.local, Surviving(order, s2.local));
    PullAllKeepsGone(listing2, snap2, s2, down, uuids, k, id);
  }

  /** A pass that completes ran phases 3–4 to the end and then phases 5–7. */
  lemma CompletedUnfolds(s: State, order: seq<LocalId>, down: set<Call>, uuids: seq<LocalId>)
    requires s.Valid() && Enumerates(order, s.local)
    requires FreshIds(uuids, s.local) && EnoughIds(uuids, s)
    ensures var pushed := PushAll(Snapshot(s.local, order), List(s.remote), s, down);
      && |uuids| >= |pushed.state.remote.docs|
      && (Refresh(s, true, order, down, uuids).completed ==>
            !pushed.aborted && Refresh(s, true, order, down, uuids).state == Pull(pushed.state, order, down, uuids))
  {
    SecondListingFits(s, order, down, uuids);
  }

  /**
   * A listed tombstone is gone from both stores after every pass that
   * completes: the local note is removed and the remote note deleted, and no
   * later phase brings either back, not even under a new `localId`.
   */
  lemma CompletedPassDeletes(s: State, order: seq<LocalId>, down: set<Call>, uuids: seq<LocalId>, k: LocalId)
    requires s.Valid() && Enumerates(order, s.local) && UniqueIds(s.local)
    requires FreshIds(uuids, s.local) && EnoughIds(uuids, s)
    requires k in s.local && s.local[k].PendingDelete() && s.local[k].id.Some? && s.local[k].id.value in s.remote.docs
    ensures var p := Refresh(s, true, order, down, uuids);
      p.completed ==>
        k !in p.state.local && s.local[k].id.value !in p.state.remote.docs && !Carries(p.state.local, s.local[k].id.value)
  {
    var p := Refresh(s, true, order, down, uuids);
    if p.completed {
      var id := s.local[k].id.value;
      var snapshot := Snapshot(s.local, order);
      var listing := List(s.remote);
      var j :| 0 <= j < |order| && order[j] == k;
      assert snapshot[j] == s.local[k];
      SnapshotDistinct(s.local, order);
      PushAllRemoves(snapshot, j, listing, s, down);
      CompletedUnfolds(s, order, down, uuids);
      PullKeepsGone(PushAll(snapshot, listing, s, down).state, order, down, uuids, k, id);
    }
  }

  /**
   * A note already gone from both stores stays gone after every pass that
   * completes, and no stored note comes to carry its `_id`.
   */
  lemma CompletedPassKeepsGone(s: State, order: seq<LocalId>, down: set<Call>, uuids: seq<LocalId>, k: LocalId, id: RemoteId)
    requires s.Valid() && Enumerates(order, s.local)
    requires FreshIds(uuids, s.local) && EnoughIds(uuids, s)
    requires k !in s.local && id !in s.remote.docs && id < s.remote.nextId && !Carries(s.local, id)
    requires forall i :: 0 <= i < |uuids| ==> uuids[i] != k
    ensures var p := Refresh(s, true, order, down, uuids);
      p.completed ==> k !in p.state.local && id !in p.state.remote.docs && !Carries(p.state.local, id)
  {
    var p := Refresh(s, true, order, down, uuids);
    if p.completed {
      var snapshot := Snapshot(s.local, order);
      PushAllKeepsGone(snapshot, List(s.remote), s, down, k, id);
      CompletedUnfolds(s, order, down, uuids);
      PullKeepsGone(PushAll(snapshot, List(s.remote), s, down).state, order, down, uuids, k, id);
    }
  }

  /** With no failing call, phases 3–4 run to the end over a read with distinct `_id`s. */
  lemma {:induction false} PushAllCompletes(notes: seq<Note>, listing: seq<Listed>, s: State)
    requires s.Valid() && DistinctIds(notes)
    requires forall i :: 0 <= i < |notes| && notes[i].id.Some? && notes[i].id.value in Ids(listing) ==>
      notes[i].id.value in s.remote.docs
    ensures !PushAll(notes, listing, s, {}).aborted
    decreases |notes|
  {
    if notes != [] {
      var q := PushOne(notes[0], listing, s, {});
      forall i | 0 <= i < |notes[1..]| && notes[1..][i].id.Some? && notes[1..][i].id.value in Ids(listing)
        ensures notes[1..][i].id.value in q.state.remote.docs
      {
        assert notes[1..][i] == notes[i + 1];
      }
      PushAllCompletes(notes[1..], listing, q.state);
    }
  }

  /** With no failing call and unique `_id`s, a pass always completes. */
  lemma PassCompletes(s: State, order: seq<LocalId>, uuids: seq<LocalId>)
    requires s.Valid() && Enumerates(order, s.local) && UniqueIds(s.local)
    requires FreshIds(uuids, s.local) && EnoughIds(uuids, s)
    ensures Refresh(s, true, order, {}, uuids).completed
  {
    SnapshotDistinct(s.local, order);
    PushAllCompletes(Snapshot(s.local, order), List(s.remote), s);
  }

  /**
   * No data loss on offline delete: a synced note deleted while offline is
   * kept as a tombstone, and the next pass that meets no failing call removes
   * it from both stores.
   */
  lemma OfflineDeleteThenRefresh(s: State, k: LocalId, up: bool, order: seq<LocalId>, uuids: seq<LocalId>)
    requires s.Valid() && Enumerates(order, s.local) && UniqueIds(s.local)
    requires FreshIds(uuids, s.local) && EnoughIds(uuids, s)
    requires k in s.local && s.local[k].id.Some? && s.local[k].id.value in s.remote.docs
    ensures var s1 := DeleteNote(s, k, false, up);
      && k in s1.local && s1.local[k].PendingDelete()
      && var p := Refresh(s1, true, order, {}, uuids);
         && p.completed && k !in p.state.local && s.local[k].id.value !in p.state.remote.docs
         && !Carries(p.state.local, s.local[k].id.value)
  {
    var s1 := DeleteNote(s, k, false, up);
    assert s1.local.Keys == s.local.Keys;
    assert UniqueIds(s1.local);
    PassCompletes(s1, order, uuids);
    CompletedPassDeletes(s1, order, {}, uuids, k);
  }
}
