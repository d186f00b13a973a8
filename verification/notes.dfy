/**
 * The note entity of the offline-first notes client and the client-side
 * operations that need no network: creating a note, projecting it to the shape
 * the server stores, and listing the local store newest first.
 *
 * The local store (IndexedDB) is a map keyed by `localId`; reading all of it
 * yields the notes in some enumeration order, given here as a sequence of keys.
 */
module Notes {
  import opened Wrappers
  import opened Seqs
  import opened Sorting

  /** Client-generated identifier (a random UUID in the source). */
  type LocalId = string

  /** Server-assigned identifier; only equality matters to the client. */
  type RemoteId = nat

  /** A point in time, in milliseconds. */
  type Time = int

  /**
   * A note as the client keeps it. `id` is the server's `_id`; the two flags are
   * tri-state: `None` is `undefined`, `Some(false)` is a local change the server
   * has not confirmed.
   */
  datatype Note = Note(
    id: Option<RemoteId>,
    localId: LocalId,
    deleteSynced: Option<bool>,
    editSynced: Option<bool>,
    title: string,
    createdAt: Time,
    tags: Option<seq<string>>)
  {
    /** `localDeleteSynced === false`: deleted while offline, a tombstone awaiting the server. */
    predicate PendingDelete() { deleteSynced == Some(false) }

    /** `localEditSynced === false`: edited locally ahead of the server. */
    predicate PendingEdit() { editSynced == Some(false) }

    /** `note.tags || []` */
    function TagList(): seq<string> { tags.GetOr([]) }
  }

  /** The fields of a note that travel to and are stored by the server. */
  datatype ServerNote = ServerNote(title: string, localId: LocalId, createdAt: Time, tags: seq<string>)

  type LocalStore = map<LocalId, Note>

  /** Every note is stored under its own `localId`. */
  predicate Keyed(local: LocalStore)
  {
    forall k :: k in local ==> local[k].localId == k
  }

  /** `order` lists every key of the store exactly once: one possible `getAll` result. */
  predicate Enumerates(order: seq<LocalId>, local: LocalStore)
  {
    && NoDup(order)
    && (forall i :: 0 <= i < |order| ==> order[i] in local)
    && (forall k :: k in local ==> k in order)
  }

  /** The notes read from the store, in the given key order. */
  function Snapshot(local: LocalStore, order: seq<LocalId>): (notes: seq<Note>)
    requires forall i :: 0 <= i < |order| ==> order[i] in local
    ensures |notes| == |order|
    ensures forall i :: 0 <= i < |order| ==> notes[i] == local[order[i]]
    decreases |order|
  {
    if order == [] then [] else [local[order[0]]] + Snapshot(local, order[1..])
  }

  /**
   * `createNote`: a new note with a fresh `localId` (`uuid`) and creation time
   * `now`; omitted tags default to the empty list.
   */
  function CreateNote(title: string, tags: Option<seq<string>>, uuid: LocalId, now: Time): (n: Note)
    ensures n.title == title && n.localId == uuid && n.createdAt == now
    ensures n.tags == Some(tags.GetOr([]))
    ensures n.id == None
    ensures n.deleteSynced == None && n.editSynced == None
  {
    Note(None, uuid, None, None, title, now, Some(tags.GetOr([])))
  }

  /**
   * `createServerNote`: the payload sent to the server. Missing tags become the
   * empty list; `_id` and the two sync flags are not part of it.
   */
  function ServerProjection(n: Note): (p: ServerNote)
    ensures p.title == n.title && p.localId == n.localId && p.createdAt == n.createdAt
    ensures p.tags == n.TagList()
  {
    ServerNote(n.title, n.localId, n.createdAt, n.tags.GetOr([]))
  }

  /** The projection never depends on the client-only fields. */
  lemma ProjectionIgnoresClientFields(n: Note, id: Option<RemoteId>, deleteSynced: Option<bool>, editSynced: Option<bool>)
    ensures ServerProjection(n.(id := id, deleteSynced := deleteSynced, editSynced := editSynced))
         == ServerProjection(n)
  {
  }

  function CreatedAt(n: Note): Time { n.createdAt }

  /**
   * `getNotes`: every stored note exactly once, newest `createdAt` first; notes
   * created at the same time keep the store's enumeration order.
   */
  function GetNotes(local: LocalStore, order: seq<LocalId>): (r: seq<Note>)
    requires Enumerates(order, local)
    ensures |r| == |local|
    ensures multiset(r) == multiset(Snapshot(local, order))
    ensures forall n :: n in r <==> n in local.Values
    ensures SortedDesc(r, CreatedAt)
  {
    var notes := Snapshot(local, order);
    var r := SortDesc(notes, CreatedAt);
    EnumerationSize(order, local);
    forall n | n in r ensures n in local.Values {
      assert n in multiset(notes);
      var i :| 0 <= i < |notes| && notes[i] == n;
      assert local[order[i]] == n;
    }
    forall n | n in local.Values ensures n in r {
      var k :| k in local && local[k] == n;
      var i :| 0 <= i < |order| && order[i] == k;
      assert notes[i] == n;
      assert n in multiset(notes);
    }
    r
  }

  /** Newest-first listing is stable: equal timestamps keep the enumeration order. */
  lemma GetNotesStable(local: LocalStore, order: seq<LocalId>, t: Time)
    requires Enumerates(order, local)
    ensures Ties(GetNotes(local, order), CreatedAt, t) == Ties(Snapshot(local, order), CreatedAt, t)
  {
    SortDescStable(Snapshot(local, order), CreatedAt, t);
  }

  /** An enumeration has exactly as many entries as the store has keys. */
  lemma EnumerationSize(order: seq<LocalId>, local: LocalStore)
    requires Enumerates(order, local)
    ensures |order| == |local|
  {
    var keys := set i | 0 <= i < |order| :: order[i];
    assert keys == local.Keys;
    DistinctCardinality(order);
  }

  lemma {:induction false} DistinctCardinality<T>(s: seq<T>)
    requires NoDup(s)
    ensures |set i | 0 <= i < |s| :: s[i]| == |s|
    decreases |s|
  {
    if s != [] {
      var tail := s[1..];
      DistinctCardinality(tail);
      var all := set i | 0 <= i < |s| :: s[i];
      var rest := set i | 0 <= i < |tail| :: tail[i];
      assert all == rest + {s[0]};
      assert s[0] !in rest;
    }
  }
}
