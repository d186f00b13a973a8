/**
 * The server's `notes` collection, as the API handlers see it: documents keyed
 * by their identifier. Identifiers are handed out in increasing order and never
 * reused, which `nextId` records.
 */
module RemoteStore {
  import opened Wrappers
  import opened Seqs
  import opened Sorting
  import opened Notes

  datatype Remote = Remote(docs: map<RemoteId, ServerNote>, nextId: RemoteId)
  {
    /** Every stored identifier was handed out already. */
    predicate Valid() { forall id :: id in docs ==> id < nextId }
  }

  /** A document as the listing endpoint returns it: with its `_id`. */
  datatype Listed = Listed(id: RemoteId, note: ServerNote)

  function ListedAt(entry: Listed): Time { entry.note.createdAt }

  function Ids(listing: seq<Listed>): seq<RemoteId>
  {
    seq(|listing|, i requires 0 <= i < |listing| => listing[i].id)
  }

  /** The documents with identifier below `n`, in increasing identifier order. */
  function Ascending(docs: map<RemoteId, ServerNote>, n: RemoteId): (r: seq<Listed>)
    ensures forall i :: 0 <= i < |r| ==> r[i].id < n && r[i].id in docs && r[i].note == docs[r[i].id]
    ensures forall id :: id in docs && id < n ==> id in Ids(r)
    ensures NoDup(r)
    decreases n
  {
    if n == 0 then []
    else
      var prefix := Ascending(docs, n - 1);
      if n - 1 in docs then
        AscendingStep(docs, n - 1, prefix);
        prefix + [Listed(n - 1, docs[n - 1])]
      else prefix
  }

  lemma AscendingStep(docs: map<RemoteId, ServerNote>, m: RemoteId, prefix: seq<Listed>)
    requires m in docs
    requires forall i :: 0 <= i < |prefix| ==> prefix[i].id < m && prefix[i].id in docs && prefix[i].note == docs[prefix[i].id]
    requires forall id :: id in docs && id < m ==> id in Ids(prefix)
    requires NoDup(prefix)
    ensures var r := prefix + [Listed(m, docs[m])];
      && (forall i :: 0 <= i < |r| ==> r[i].id < m + 1 && r[i].id in docs && r[i].note == docs[r[i].id])
      && (forall id :: id in docs && id < m + 1 ==> id in Ids(r))
      && NoDup(r)
  {
    var r := prefix + [Listed(m, docs[m])];
    assert Ids(r)[|prefix|] == m;
    forall id | id in Ids(prefix) ensures id in Ids(r) {
      var i :| 0 <= i < |prefix| && Ids(prefix)[i] == id;
      assert Ids(r)[i] == id;
    }
    forall i, j | 0 <= i < j < |r| ensures r[i] != r[j] {
      if j < |prefix| {
        assert r[i] == prefix[i] && r[j] == prefix[j];
      } else {
        assert r[i].id < m;
      }
    }
  }

  /**
   * `GET /api/notes`: every document exactly once, newest `createdAt` first.
   * The server leaves the order of documents created at the same time open;
   * the model fixes one (by identifier) and no law depends on it.
   */
  function List(r: Remote): (listing: seq<Listed>)
    requires r.Valid()
    ensures NoDup(Ids(listing))
    ensures forall i :: 0 <= i < |listing| ==> listing[i].id in r.docs && listing[i].note == r.docs[listing[i].id]
    ensures forall id :: id in r.docs <==> id in Ids(listing)
    ensures SortedDesc(listing, ListedAt)
  {
    var asc := Ascending(r.docs, r.nextId);
    var listing := SortDesc(asc, ListedAt);
    ListingFacts(r, asc, listing);
    listing
  }

  lemma ListingFacts(r: Remote, asc: seq<Listed>, listing: seq<Listed>)
    requires r.Valid()
    requires forall i :: 0 <= i < |asc| ==> asc[i].id in r.docs && asc[i].note == r.docs[asc[i].id]
    requires forall id :: id in r.docs ==> id in Ids(asc)
    requires NoDup(asc)
    requires multiset(listing) == multiset(asc)
    ensures NoDup(Ids(listing))
    ensures forall i :: 0 <= i < |listing| ==> listing[i].id in r.docs && listing[i].note == r.docs[listing[i].id]
    ensures forall id :: id in r.docs <==> id in Ids(listing)
  {
    forall i | 0 <= i < |listing|
      ensures listing[i].id in r.docs && listing[i].note == r.docs[listing[i].id]
    {
      assert listing[i] in multiset(asc);
    }
    forall id | id in r.docs ensures id in Ids(listing) {
      var i :| 0 <= i < |asc| && Ids(asc)[i] == id;
      assert asc[i] in multiset(listing);
      var j :| 0 <= j < |listing| && listing[j] == asc[i];
      assert Ids(listing)[j] == id;
    }
    NoDupPermutation(asc, listing);
    forall i, j | 0 <= i < j < |listing| ensures Ids(listing)[i] != Ids(listing)[j] {
      assert listing[i] != listing[j];
    }
  }

  /** The first listed document with identifier `id`, if any (`serverNotes.find`). */
  function FindListed(listing: seq<Listed>, id: RemoteId): (r: Option<ServerNote>)
    ensures r.Some? <==> id in Ids(listing)
    ensures r.Some? ==> Listed(id, r.value) in listing
    decreases |listing|
  {
    if listing == [] then None
    else if listing[0].id == id then
      assert Ids(listing)[0] == id;
      Some(listing[0].note)
    else
      assert Ids(listing) == [listing[0].id] + Ids(listing[1..]);
      FindListed(listing[1..], id)
  }
}
