/**
 * The public-id index of the device table: a query on `#id = :id` that
 * projects `#id, #deviceId`, of which the callers use only the first item
 * (`(Items ?? [])[0]`). The index is given as its items in the order the
 * query yields them; it may lag behind the table.
 */
module IdIndex {
  import opened Wrappers
  import opened Sequences

  /** One projected index item. */
  datatype IndexEntry = IndexEntry(id: string, deviceId: string)

  /** The query `#id = :id`: an exact match, with no case folding. */
  function Query(index: seq<IndexEntry>, id: string): (r: seq<IndexEntry>)
    ensures forall e :: e in r <==> e in index && e.id == id
  {
    Filter(index, (e: IndexEntry) => e.id == id)
  }

  /** `k` is the position of the first item for `id`. */
  predicate FirstMatch(index: seq<IndexEntry>, id: string, k: int) {
    0 <= k < |index| && index[k].id == id && forall j :: 0 <= j < k ==> index[j].id != id
  }

  /** The query's first item is the index's first item for that id. */
  lemma {:induction false} QueryHead(index: seq<IndexEntry>, id: string, k: int)
    requires FirstMatch(index, id, k)
    ensures Query(index, id) != [] && Query(index, id)[0] == index[k]
  {
    if index[0].id != id {
      assert FirstMatch(index[1..], id, k - 1);
      QueryHead(index[1..], id, k - 1);
    }
  }

  /** An index without an item for `id` answers with no items. */
  lemma QueryEmpty(index: seq<IndexEntry>, id: string)
    ensures Query(index, id) == [] <==> forall e :: e in index ==> e.id != id
  {
    if Query(index, id) != [] {
      assert Query(index, id)[0] in Query(index, id);
    }
  }

  /** There is a first item for `id` whenever there is any. */
  lemma FirstExists(index: seq<IndexEntry>, id: string) returns (k: int)
    requires exists e :: e in index && e.id == id
    ensures FirstMatch(index, id, k)
  {
    k := 0;
    while index[k].id != id
      invariant 0 <= k < |index|
      invariant forall j :: 0 <= j < k ==> index[j].id != id
      decreases |index| - k
    {
      k := k + 1;
      if k == |index| {
        assert false;
      }
    }
  }

  /** `(Items ?? [])[0]`. */
  function First(index: seq<IndexEntry>, id: string): (r: Option<IndexEntry>)
    ensures r.None? <==> forall e :: e in index ==> e.id != id
    ensures forall k :: FirstMatch(index, id, k) ==> r == Some(index[k])
  {
    var items := Query(index, id);
    QueryEmpty(index, id);
    assert forall k :: FirstMatch(index, id, k) ==> items != [] && items[0] == index[k] by {
      forall k | FirstMatch(index, id, k)
        ensures items != [] && items[0] == index[k]
      {
        QueryHead(index, id, k);
      }
    }
    if items == [] then None else Some(items[0])
  }
}
