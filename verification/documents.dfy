/**
 * The document store as the service sees it: every collection is a sequence of
 * documents in the store's natural (insertion) order, and every document carries
 * the `_id` the store gave it when it was inserted.
 */
module Documents {

  /** The `_id` of a stored document; `create_document` hands out a fresh one per insert. */
  type DocId = nat

  datatype Doc<T> = Doc(id: DocId, body: T)

  /** Documents are appended with fresh, growing ids and never re-numbered. */
  predicate IdsIncreasing<T>(docs: seq<Doc<T>>) {
    forall i, j :: 0 <= i < j < |docs| ==> docs[i].id < docs[j].id
  }

  /** Every id in the collection was handed out before `next`. */
  predicate IdsBelow<T>(docs: seq<Doc<T>>, next: DocId) {
    forall i :: 0 <= i < |docs| ==> docs[i].id < next
  }

  /** `delete_one({"_id": id})`: removes the first document with that id, if any. */
  function DeleteById<T>(docs: seq<Doc<T>>, id: DocId): (r: seq<Doc<T>>)
    ensures (exists i :: 0 <= i < |docs| && docs[i].id == id) ==> |r| == |docs| - 1
    ensures (forall i :: 0 <= i < |docs| ==> docs[i].id != id) ==> r == docs
  {
    if docs == [] then []
    else if docs[0].id == id then docs[1..]
    else [docs[0]] + DeleteById(docs[1..], id)
  }

  /** With unique ids, deleting by the id of the document at `i` removes exactly that document. */
  lemma {:induction false} DeleteByIdAt<T>(docs: seq<Doc<T>>, i: nat)
    requires IdsIncreasing(docs) && i < |docs|
    ensures DeleteById(docs, docs[i].id) == docs[..i] + docs[i + 1..]
  {
    if i > 0 {
      assert docs[0].id < docs[i].id;
      var tail := docs[1..];
      assert tail[i - 1] == docs[i];
      DeleteByIdAt(tail, i - 1);
      assert [docs[0]] + (tail[..i - 1] + tail[i..]) == docs[..i] + docs[i + 1..];
    }
  }

  /** Removing one document keeps the ids increasing and below the same bound, and its id leaves the collection. */
  lemma RemoveKeepsIds<T>(docs: seq<Doc<T>>, i: nat, next: DocId)
    requires IdsIncreasing(docs) && IdsBelow(docs, next) && i < |docs|
    ensures IdsIncreasing(docs[..i] + docs[i + 1..]) && IdsBelow(docs[..i] + docs[i + 1..], next)
    ensures forall c :: c in docs[..i] + docs[i + 1..] ==> c.id != docs[i].id
  {
    var r := docs[..i] + docs[i + 1..];
    forall k | 0 <= k < |r| ensures r[k] == docs[if k < i then k else k + 1] { }
  }
}
