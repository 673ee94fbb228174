/** The item collection as an ordered table (store order is insertion order),
    with the queries the service uses: look-up by id, the two derived queries,
    save (insert or overwrite by id) and delete by id. */
module Repository {
  import opened Model

  /** `r` is `store` with some items left out, the rest kept in store order. */
  ghost predicate IsSubsequence(r: seq<Item>, store: seq<Item>)
    decreases |store|
  {
    if r == [] then true
    else if store == [] then false
    else if r[0] == store[0] then IsSubsequence(r[1..], store[1..])
    else IsSubsequence(r, store[1..])
  }

  /** The items of `store` that satisfy `keep`, in store order. */
  function Filter(store: seq<Item>, keep: Item -> bool): (r: seq<Item>)
    ensures |r| <= |store|
    ensures forall x :: x in r <==> x in store && keep(x)
  {
    if store == [] then []
    else if keep(store[0]) then [store[0]] + Filter(store[1..], keep)
    else Filter(store[1..], keep)
  }

  /** A filter keeps every occurrence of a kept item and no occurrence of any
      other, in store order. */
  lemma {:induction false} FilterExact(store: seq<Item>, keep: Item -> bool)
    ensures forall x :: multiset(Filter(store, keep))[x] == if keep(x) then multiset(store)[x] else 0
    ensures IsSubsequence(Filter(store, keep), store)
  {
    if store != [] {
      FilterExact(store[1..], keep);
      assert store == [store[0]] + store[1..];
      var r := Filter(store, keep);
      if keep(store[0]) {
        assert r[0] == store[0] && r[1..] == Filter(store[1..], keep);
      } else if r != [] && r[0] == store[0] {
        assert false;
      }
    }
  }

  /** No two distinct positions of `store` hold items related by `clash`. */
  ghost predicate Pairwise(store: seq<Item>, clash: (Item, Item) -> bool) {
    forall i, j :: 0 <= i < j < |store| ==> !clash(store[i], store[j])
  }

  predicate SameId(a: Item, b: Item) {
    a.id == b.id
  }

  predicate SameClientAndProduct(a: Item, b: Item) {
    a.clientId == b.clientId && a.productId == b.productId
  }

  predicate HasId(id: int, x: Item) {
    x.id == id
  }

  predicate OfClient(clientId: int, x: Item) {
    x.clientId == clientId
  }

  predicate OfClientAndProduct(clientId: int, productId: int, x: Item) {
    x.clientId == clientId && x.productId == productId
  }

  /** findById: the stored item with that id, if any. */
  function FindById(store: seq<Item>, id: int): (r: Option<Item>)
    ensures r.Some? <==> exists x :: x in store && x.id == id
    ensures r.Some? ==> r.value in store && r.value.id == id
  {
    var hits := Filter(store, x => HasId(id, x));
    if hits == [] then None
    else
      assert hits[0] in hits;
      Some(hits[0])
  }

  /** findWishlistItemByClientId: the client's items, in store order. */
  function FindByClientId(store: seq<Item>, clientId: int): (r: seq<Item>)
    ensures forall x :: x in r <==> x in store && x.clientId == clientId
  {
    Filter(store, x => OfClient(clientId, x))
  }

  /** findWishlistItemByClientIdAndProductId: the items matching both ids, in store order. */
  function FindByClientIdAndProductId(store: seq<Item>, clientId: int, productId: int): (r: seq<Item>)
    ensures forall x :: x in r <==> x in store && x.clientId == clientId && x.productId == productId
  {
    Filter(store, x => OfClientAndProduct(clientId, productId, x))
  }

  /** save: overwrites the item stored under `x.id`, or appends `x` when no item has that id. */
  function Save(store: seq<Item>, x: Item): (r: seq<Item>)
    ensures x in r
    ensures forall y :: y in r ==> y == x || y in store
    ensures forall y :: y in store && y.id != x.id ==> y in r
    ensures |r| <= |store| + 1
    ensures (exists y :: y in store && y.id == x.id) ==> |r| == |store|
  {
    if store == [] then [x]
    else if store[0].id == x.id then [x] + store[1..]
    else [store[0]] + Save(store[1..], x)
  }

  /** deleteById: removes the item with that id; an absent id leaves the store as it is. */
  function DeleteById(store: seq<Item>, id: int): (r: seq<Item>)
    ensures forall x :: x in r <==> x in store && x.id != id
    ensures (forall x :: x in store ==> x.id != id) ==> r == store
  {
    FilterAll(store, x => !HasId(id, x));
    Filter(store, x => !HasId(id, x))
  }

  /** A filter that every stored item passes returns the store itself. */
  lemma {:induction false} FilterAll(store: seq<Item>, keep: Item -> bool)
    ensures (forall x :: x in store ==> keep(x)) ==> Filter(store, keep) == store
  {
    if store != [] && forall x :: x in store ==> keep(x) {
      FilterAll(store[1..], keep);
      assert forall x :: x in store[1..] ==> x in store;
      assert store == [store[0]] + store[1..];
    }
  }

  /** Deleting by id keeps every occurrence of the other items, and nothing
      else, in store order. */
  lemma DeleteByIdExact(store: seq<Item>, id: int)
    ensures forall x :: multiset(DeleteById(store, id))[x] == if x.id != id then multiset(store)[x] else 0
    ensures IsSubsequence(DeleteById(store, id), store)
  {
    FilterExact(store, x => !HasId(id, x));
  }

  /** The client query returns every occurrence of the client's items, and
      nothing else, in store order. */
  lemma FindByClientIdExact(store: seq<Item>, clientId: int)
    ensures forall x :: multiset(FindByClientId(store, clientId))[x] ==
              if x.clientId == clientId then multiset(store)[x] else 0
    ensures IsSubsequence(FindByClientId(store, clientId), store)
  {
    FilterExact(store, x => OfClient(clientId, x));
  }

  /** The client-and-product query returns every occurrence of the matching
      items, and nothing else, in store order. */
  lemma FindByClientIdAndProductIdExact(store: seq<Item>, clientId: int, productId: int)
    ensures forall x :: multiset(FindByClientIdAndProductId(store, clientId, productId))[x] ==
              if x.clientId == clientId && x.productId == productId then multiset(store)[x] else 0
    ensures IsSubsequence(FindByClientIdAndProductId(store, clientId, productId), store)
  {
    FilterExact(store, x => OfClientAndProduct(clientId, productId, x));
  }

  /** Filtering a store extended by one item filters the old store and then that item. */
  lemma {:induction false} FilterAppend(store: seq<Item>, x: Item, keep: Item -> bool)
    ensures Filter(store + [x], keep) == Filter(store, keep) + (if keep(x) then [x] else [])
  {
    if store == [] {
      assert store + [x] == [x];
      assert [x][1..] == [];
    } else {
      assert (store + [x])[1..] == store[1..] + [x];
      FilterAppend(store[1..], x, keep);
    }
  }

  /** The first item a filter returns is the first item of the store that passes it. */
  lemma {:induction false} FilterFirst(store: seq<Item>, keep: Item -> bool)
    requires Filter(store, keep) != []
    ensures exists k :: 0 <= k < |store| && store[k] == Filter(store, keep)[0] && keep(store[k]) &&
                        forall j :: 0 <= j < k ==> !keep(store[j])
  {
    if !keep(store[0]) {
      FilterFirst(store[1..], keep);
      var k :| 0 <= k < |store[1..]| && store[1..][k] == Filter(store[1..], keep)[0] && keep(store[1..][k]) &&
               forall j :: 0 <= j < k ==> !keep(store[1..][j]);
      assert store[k + 1] == store[1..][k];
      forall j | 0 <= j < k + 1 ensures !keep(store[j]) {
        if j > 0 { assert store[j] == store[1..][j - 1]; }
      }
    }
  }

  /** Filtering keeps any pairwise property: a filter returns a subsequence. */
  lemma {:induction false} FilterKeepsPairwise(store: seq<Item>, keep: Item -> bool, clash: (Item, Item) -> bool)
    requires Pairwise(store, clash)
    ensures Pairwise(Filter(store, keep), clash)
  {
    if store != [] {
      var tail := store[1..];
      forall i, j | 0 <= i < j < |tail| ensures !clash(tail[i], tail[j]) {
        assert tail[i] == store[i + 1] && tail[j] == store[j + 1];
      }
      FilterKeepsPairwise(tail, keep, clash);
      if keep(store[0]) {
        var ft := Filter(tail, keep);
        var r := [store[0]] + ft;
        forall i, j | 0 <= i < j < |r| ensures !clash(r[i], r[j]) {
          if i == 0 {
            assert r[j] == ft[j - 1];
            assert ft[j - 1] in tail;
            var k :| 0 <= k < |tail| && tail[k] == ft[j - 1];
            assert store[k + 1] == tail[k];
          } else {
            assert r[i] == ft[i - 1] && r[j] == ft[j - 1];
          }
        }
      }
    }
  }

  /** Deleting an id keeps any pairwise property of the store. */
  lemma DeleteByIdKeepsPairwise(store: seq<Item>, id: int, clash: (Item, Item) -> bool)
    requires Pairwise(store, clash)
    ensures Pairwise(DeleteById(store, id), clash)
  {
    FilterKeepsPairwise(store, x => !HasId(id, x), clash);
  }

  /** Deleting an id never lengthens a client's list. */
  lemma {:induction false} DeleteByIdShortensClient(store: seq<Item>, id: int, clientId: int)
    ensures |FindByClientId(DeleteById(store, id), clientId)| <= |FindByClientId(store, clientId)|
  {
    if store != [] {
      DeleteByIdShortensClient(store[1..], id, clientId);
      if store[0].id != id {
        var r := [store[0]] + DeleteById(store[1..], id);
        assert r[0] == store[0] && r[1..] == DeleteById(store[1..], id);
      }
    }
  }

  /** With no stored item under `x.id`, save appends `x` at the end of the store. */
  lemma {:induction false} SaveFresh(store: seq<Item>, x: Item)
    requires forall y :: y in store ==> y.id != x.id
    ensures Save(store, x) == store + [x]
  {
    if store != [] {
      SaveFresh(store[1..], x);
      assert store == [store[0]] + store[1..];
    }
  }
}
