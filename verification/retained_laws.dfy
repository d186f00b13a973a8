/**
 * Laws of the corrected delete: once a synced note is deleted, in any network
 * condition and through any sequence of passes, it is either still waiting as
 * a tombstone that alone carries its `_id`, or gone from both stores with no
 * stored note carrying that `_id`; the first pass that completes makes it gone.
 */
module RetainedLaws {
  import opened Wrappers
  import opened Seqs
  import opened Notes
  import opened RemoteStore
  import opened Client
  import opened Sync
  import opened Reconcile
  import opened ReconcileLaws
  import opened Retained

  /** The deleted note waits under `k` as a tombstone, the only stored note carrying `id`. */
  predicate Tomb(s: State, k: LocalId, id: RemoteId)
  {
    && k in s.local && s.local[k].PendingDelete() && s.local[k].id == Some(id)
    && id < s.remote.nextId && CarriedOnlyBy(s.local, id, k)
  }

  /** The deleted note is gone from both stores, and no stored note carries `id`. */
  predicate Gone(s: State, k: LocalId, id: RemoteId)
  {
    k !in s.local && id !in s.remote.docs && id < s.remote.nextId && !Carries(s.local, id)
  }

  /** The deleted note is on its way out: never resurrected, under `k` or any other `localId`. */
  predicate Doomed(s: State, k: LocalId, id: RemoteId)
  {
    Tomb(s, k, id) || Gone(s, k, id)
  }

  /**
   * A step from `s` to `t` that neither touches the note under `k` nor hands
   * out `id`: every note carrying `id` afterwards carried it before, and the
   * server only gains documents under fresh identifiers.
   */
  predicate Untouched(s: State, t: State, k: LocalId, id: RemoteId)
  {
    && (forall j :: j in t.local && t.local[j].id == Some(id) ==> j in s.local && s.local[j].id == Some(id))
    && (k in t.local <==> k in s.local) && (k in s.local ==> t.local[k] == s.local[k])
    && t.remote.docs.Keys <= s.remote.docs.Keys + {s.remote.nextId} && t.remote.nextId >= s.remote.nextId
  }

  /** A step that leaves the deleted note untouched keeps it doomed, and gone when it was gone. */
  lemma UntouchedDoomed(s: State, t: State, k: LocalId, id: RemoteId)
    requires s.Valid() && Doomed(s, k, id) && Untouched(s, t, k, id)
    ensures Doomed(t, k, id) && (Gone(s, k, id) ==> Gone(t, k, id))
    ensures id !in s.remote.docs ==> id !in t.remote.docs
  {
    assert id < s.remote.nextId;
    if Carries(t.local, id) {
      var j :| j in t.local && t.local[j].id == Some(id);
      assert s.local[j].id == Some(id);
    }
  }

  /** One step of the corrected phases 3–4 on a note other than the deleted one leaves it untouched. */
  lemma PushOneUntouched(n: Note, listing: seq<Listed>, s: State, down: set<Call>, k: LocalId, id: RemoteId)
    requires s.Valid() && n.localId != k && n.id != Some(id) && id < s.remote.nextId
    ensures Untouched(s, PushOneRetained(n, listing, s, down).state, k, id)
  {
    var t := PushOneRetained(n, listing, s, down).state;
    forall j | j in t.local && t.local[j].id == Some(id) ensures j in s.local && s.local[j].id == Some(id) {
      if j != n.localId {
        assert t.local[j] == s.local[j];
      }
    }
  }

  /**
   * One note of the corrected phases 3–4 keeps the deleted note doomed; a
   * gone note stays gone, and the tombstone itself, once its step does not
   * abort, is gone.
   */
  lemma PushOneDoomed(n: Note, listing: seq<Listed>, s: State, down: set<Call>, k: LocalId, id: RemoteId)
    requires s.Valid() && Doomed(s, k, id)
    requires n.localId == k ==> n.PendingDelete() && n.id == Some(id) && k in s.local
    requires n.id == Some(id) ==> n.localId == k
    requires id !in Ids(listing) ==> id !in s.remote.docs
    ensures var q := PushOneRetained(n, listing, s, down);
      && Doomed(q.state, k, id)
      && (id !in Ids(listing) ==> id !in q.state.remote.docs)
      && (Gone(s, k, id) ==> Gone(q.state, k, id))
      && (n.localId == k && !q.aborted ==> Gone(q.state, k, id))
  {
    var q := PushOneRetained(n, listing, s, down);
    if n.localId == k {
      assert Tomb(s, k, id);
      if !q.aborted {
        assert q.state.local == s.local - {k};
        forall j | j in q.state.local ensures q.state.local[j].id != Some(id) {
          assert q.state.local[j] == s.local[j];
        }
      }
    } else {
      PushOneUntouched(n, listing, s, down, k, id);
      UntouchedDoomed(s, q.state, k, id);
    }
  }

  /**
   * The corrected phases 3–4 over a read of the store keep the deleted note
   * doomed; when they run to the end over a read holding its tombstone, it
   * is gone.
   */
  lemma {:induction false} PushAllDoomed(notes: seq<Note>, listing: seq<Listed>, s: State, down: set<Call>, k: LocalId, id: RemoteId)
    requires s.Valid() && Doomed(s, k, id) && DistinctLocalIds(notes)
    requires forall i :: 0 <= i < |notes| && notes[i].localId == k ==> notes[i].PendingDelete() && notes[i].id == Some(id)
    requires forall i :: 0 <= i < |notes| && notes[i].id == Some(id) ==> notes[i].localId == k
    requires Gone(s, k, id) ==> forall i :: 0 <= i < |notes| ==> notes[i].localId != k
    requires id !in Ids(listing) ==> id !in s.remote.docs
    ensures var p := PushAllRetained(notes, listing, s, down);
      && Doomed(p.state, k, id)
      && (Gone(s, k, id) ==> Gone(p.state, k, id))
      && (!p.aborted && (exists i :: 0 <= i < |notes| && notes[i].localId == k) ==> Gone(p.state, k, id))
    decreases |notes|
  {
    if notes != [] {
      var q := PushOneRetained(notes[0], listing, s, down);
      PushOneDoomed(notes[0], listing, s, down, k, id);
      if !q.aborted {
        var rest := notes[1..];
        forall i | 0 <= i < |rest| ensures rest[i] == notes[i + 1] && rest[i].localId != notes[0].localId {
          assert notes[0].localId != notes[i + 1].localId;
        }
        PushAllDoomed(rest, listing, q.state, down, k, id);
        var p := PushAllRetained(rest, listing, q.state, down);
        if i :| 0 <= i < |notes| && notes[i].localId == k {
          if i > 0 {
            assert rest[i - 1].localId == k;
          }
        }
      }
    }
  }

  /**
   * One corrected pass keeps a deleted note doomed, and a gone note gone;
   * after a pass that completes the note is gone from both stores.
   */
  lemma PassKeepsDoomed(s: State, online: bool, order: seq<LocalId>, down: set<Call>, uuids: seq<LocalId>, k: LocalId, id: RemoteId)
    requires s.Valid() && Enumerates(order, s.local)
    requires FreshIds(uuids, s.local) && EnoughIds(uuids, s)
    requires Doomed(s, k, id) && k !in uuids
    ensures var p := RefreshRetained(s, online, order, down, uuids);
      && Doomed(p.state, k, id)
      && (Gone(s, k, id) ==> Gone(p.state, k, id))
      && (p.completed ==> Gone(p.state, k, id))
  {
    var p := RefreshRetained(s, online, order, down, uuids);
    if online && ListCall(0) !in down {
      var snapshot := Snapshot(s.local, order);
      var listing := List(s.remote);
      SnapshotDistinct(s.local, order);
      forall i | 0 <= i < |snapshot| && snapshot[i].id == Some(id) ensures snapshot[i].localId == k {
        assert snapshot[i] == s.local[order[i]];
      }
      PushAllDoomed(snapshot, listing, s, down, k, id);
      var pushed := PushAllRetained(snapshot, listing, s, down);
      if p.completed {
        if Tomb(s, k, id) {
          var j :| 0 <= j < |order| && order[j] == k;
          assert snapshot[j].localId == k;
        }
        PushAllRetainedGrowth(snapshot, listing, s, down);
        EnumerationSize(order, s.local);
        assert p.state == Pull(pushed.state, order, down, uuids);
        PullKeepsGone(pushed.state, order, down, uuids, k, id);
      }
    }
  }

  /** One pass's oracles: connectivity, the store's key order, the failing calls, the fresh identifiers. */
  datatype Run = Run(online: bool, order: seq<LocalId>, down: set<Call>, uuids: seq<LocalId>)

  /** The oracles fit the stores: a read order of the store and enough fresh identifiers. */
  predicate Fits(s: State, run: Run)
  {
    s.Valid() && Enumerates(run.order, s.local) && FreshIds(run.uuids, s.local) && EnoughIds(run.uuids, s)
  }

  /** Corrected passes run one after another from `s`, as long as the oracles fit the stores they meet. */
  function Passes(s: State, runs: seq<Run>): (ps: seq<Pass>)
    requires s.Valid()
    ensures |ps| <= |runs|
    decreases |runs|
  {
    if runs == [] || !Fits(s, runs[0]) then []
    else
      var p := RefreshRetained(s, runs[0].online, runs[0].order, runs[0].down, runs[0].uuids);
      [p] + Passes(p.state, runs[1..])
  }

  /** After every pass of the sequence the deleted note is doomed. */
  predicate DoomedThroughout(ps: seq<Pass>, k: LocalId, id: RemoteId)
  {
    forall i :: 0 <= i < |ps| ==> Doomed(ps[i].state, k, id)
  }

  /** From the first pass that completes on, the deleted note is gone. */
  predicate GoneOnceCompleted(ps: seq<Pass>, k: LocalId, id: RemoteId)
  {
    forall i, j :: 0 <= i <= j < |ps| && ps[i].completed ==> Gone(ps[j].state, k, id)
  }

  /**
   * Every pass of a sequence keeps a deleted note doomed, and a gone note
   * gone; from the first pass that completes on, it is gone from both stores.
   */
  lemma {:induction false} PassesKeepDoomed(s: State, runs: seq<Run>, k: LocalId, id: RemoteId)
    requires s.Valid() && Doomed(s, k, id)
    requires forall i :: 0 <= i < |runs| ==> k !in runs[i].uuids
    ensures DoomedThroughout(Passes(s, runs), k, id)
    ensures Gone(s, k, id) ==> forall i :: 0 <= i < |Passes(s, runs)| ==> Gone(Passes(s, runs)[i].state, k, id)
    ensures GoneOnceCompleted(Passes(s, runs), k, id)
    decreases |runs|
  {
    if runs != [] && Fits(s, runs[0]) {
      var r := runs[0];
      var p := RefreshRetained(s, r.online, r.order, r.down, r.uuids);
      PassKeepsDoomed(s, r.online, r.order, r.down, r.uuids, k, id);
      assert forall i :: 0 <= i < |runs[1..]| ==> runs[1..][i] == runs[i + 1];
      var rest := Passes(p.state, runs[1..]);
      PassesKeepDoomed(p.state, runs[1..], k, id);
      var ps := Passes(s, runs);
      assert ps == [p] + rest;
      forall i | 0 <= i < |ps| ensures Doomed(ps[i].state, k, id) && (Gone(s, k, id) ==> Gone(ps[i].state, k, id)) {
        if i > 0 {
          assert ps[i] == rest[i - 1];
        }
      }
      forall i, j | 0 <= i <= j < |ps| && ps[i].completed ensures Gone(ps[j].state, k, id) {
        if i == 0 {
          if j > 0 {
            assert ps[j] == rest[j - 1];
          }
        } else {
          assert ps[i] == rest[i - 1] && ps[j] == rest[j - 1];
        }
      }
    }
  }

  /**
   * With the corrected delete, a synced note deleted in any network condition
   * is never resurrected by the passes that follow, whichever of their calls
   * fail: no other stored note ever carries its `_id`, and it is never stored
   * again once removed. From the first pass that completes on, it is gone
   * from both stores.
   */
  lemma {:induction false} RetainedDeleteSticks(s: State, k: LocalId, online: bool, up: bool, runs: seq<Run>)
    requires s.Valid() && UniqueIds(s.local)
    requires k in s.local && s.local[k].id.Some? && s.local[k].id.value < s.remote.nextId
    requires forall i :: 0 <= i < |runs| ==> k !in runs[i].uuids
    ensures Doomed(DeleteNoteRetained(s, k, online, up), k, s.local[k].id.value)
    ensures DoomedThroughout(Passes(DeleteNoteRetained(s, k, online, up), runs), k, s.local[k].id.value)
    ensures GoneOnceCompleted(Passes(DeleteNoteRetained(s, k, online, up), runs), k, s.local[k].id.value)
  {
    var id := s.local[k].id.value;
    var s1 := DeleteNoteRetained(s, k, online, up);
    forall j | j in s1.local && j != k ensures s1.local[j].id != Some(id) {
      assert s1.local[j] == s.local[j];
    }
    PassesKeepDoomed(s1, runs, k, id);
  }
}
