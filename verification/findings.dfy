/**
 * Deletes whose remote call fails: as written, both `deleteNote` and phase 3
 * of the pass remove the local note first, so the server keeps the document
 * and the next pass pulls it back under a new `localId`. The corrected
 * definitions (`Retained`) keep a tombstone until the server has answered.
 */
module Findings {
  import opened Wrappers
  import opened Notes
  import opened RemoteStore
  import opened Client
  import opened Sync
  import opened Reconcile
  import opened ReconcileLaws
  import opened Retained

  /** One synced note, "a", whose remote copy has `_id` 0. */
  function OneSynced(): (s: State)
    ensures s.Valid()
    ensures "a" in s.local && s.local["a"].id == Some(0) && 0 in s.remote.docs
  {
    var n := Note(Some(0), "a", None, None, "groceries", 5, Some([]));
    State(map["a" := n], Remote(map[0 := ServerProjection(n)], 1))
  }

  /**
   * As written: the user deletes "a" online, the delete does not reach the
   * server, and the next pass, meeting no failure, stores the note again as
   * "b" with the same `_id` and title.
   */
  lemma FailedOnlineDeleteResurrects()
    ensures var s1 := DeleteNote(OneSynced(), "a", true, false);
      && "a" !in s1.local && 0 in s1.remote.docs
      && var p := Refresh(s1, true, [], {}, ["b"]);
         && p.completed
         && "b" in p.state.local && p.state.local["b"].id == Some(0) && p.state.local["b"].title == "groceries"
  {
    var s1 := DeleteNote(OneSynced(), "a", true, false);
    assert s1.local == map[];
    var doc := s1.remote.docs[0];
    assert s1.remote.docs == map[0 := doc];
    var listing := List(s1.remote);
    assert Ids(listing) == [0] by {
      assert |listing| == 1 by { RemoteSizeBound(s1, listing); }
      assert listing[0].id in s1.remote.docs;
    }
    assert listing == [Listed(0, doc)];
    assert Snapshot(s1.local, []) == [];
    assert Surviving([], s1.local) == [];
    var e := listing[0];
    assert FindById([], e.id).None? && FindByLocalId([], e.note.localId).None?;
    var saved := UpdateSavedNote(e, [], s1.local, "b");
    assert saved.local == map["b" := PulledNote(e, "b")];
  }

  /**
   * As written: "a" is deleted offline, and the next pass reaches the server
   * but its delete of `_id` 0 fails. Phase 3 has already removed the tombstone
   * when the delete throws, so the pass stops with the server still holding 0
   * and no local trace of the delete, and the pass after it, meeting no
   * failure, stores the note again as "b".
   */
  lemma AbortedDeleteResurrects()
    ensures var s1 := DeleteNote(OneSynced(), "a", false, true);
      && "a" in s1.local && s1.local["a"].PendingDelete()
      && var p := Refresh(s1, true, ["a"], {DeleteCall(0)}, ["c", "d"]);
         && !p.completed
         && p.state == DeleteNote(OneSynced(), "a", true, false)
         && var p2 := Refresh(p.state, true, [], {}, ["b"]);
            p2.completed && "b" in p2.state.local && p2.state.local["b"].id == Some(0)
  {
    var s1 := DeleteNote(OneSynced(), "a", false, true);
    assert s1.local.Keys == {"a"} && s1.remote == OneSynced().remote;
    var listing := List(s1.remote);
    assert 0 in Ids(listing);
    var tomb := s1.local["a"];
    assert Snapshot(s1.local, ["a"]) == [tomb];
    var q := PushOne(tomb, listing, s1, {DeleteCall(0)});
    assert q.aborted && q.state == State(map[], s1.remote);
    assert PushAll([tomb], listing, s1, {DeleteCall(0)}) == q;
    assert Refresh(s1, true, ["a"], {DeleteCall(0)}, ["c", "d"]).state == q.state;
    assert q.state == DeleteNote(OneSynced(), "a", true, false);
    FailedOnlineDeleteResurrects();
  }

  /**
   * Corrected: the same failing delete leaves the tombstone and the server's
   * document in place, and the next pass that meets no failure removes both.
   */
  lemma AbortedRetainedDeleteKept()
    ensures var s1 := DeleteNoteRetained(OneSynced(), "a", false, true);
      && "a" in s1.local && s1.local["a"].PendingDelete()
      && var p := RefreshRetained(s1, true, ["a"], {DeleteCall(0)}, ["c", "d"]);
         && !p.completed && p.state == s1
         && var p2 := RefreshRetained(p.state, true, ["a"], {}, ["c", "d"]);
            p2.completed && p2.state.local == map[] && p2.state.remote.docs == map[]
  {
    var s1 := DeleteNoteRetained(OneSynced(), "a", false, true);
    assert s1.local.Keys == {"a"};
    var listing := List(s1.remote);
    assert 0 in Ids(listing);
    assert Snapshot(s1.local, ["a"]) == [s1.local["a"]];
    var gone := State(map[], Remote(map[], 1));
    assert PushAllRetained([s1.local["a"]], listing, s1, {}).state == gone;
  }
}
