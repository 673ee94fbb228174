/** The wishlist service as an object: it owns the item table and the id
    counter, and its write operations change them step by step. Each method is
    proved to do what the corresponding transition of ServiceSpec does, and to
    keep ServiceSpec.Invariant. */
module Service {
  import opened Model
  import opened Repository
  import opened ServiceSpec

  class WishlistService {
    /** The item collection, in store order. */
    var items: seq<Item>
    /** The value of the single id counter ("wishlist_sequence"). */
    var sequence: int

    ghost function Current(): State
      reads this
    {
      State(items, sequence)
    }

    ghost predicate Valid()
      reads this
    {
      Invariant(Current())
    }

    /** A service over an empty store and a counter that has not yet allocated. */
    constructor ()
      ensures items == [] && sequence == 0
      ensures Valid()
    {
      items := [];
      sequence := 0;
    }

    /** The counter's increment-and-return-new: successive calls return 1, 2, 3, ... */
    method GenerateSequence() returns (id: int)
      modifies this`sequence
      ensures sequence == old(sequence) + 1
      ensures id == sequence
      ensures old(Valid()) ==> Valid()
    {
      sequence := sequence + 1;
      id := sequence;
    }

    /** addWishlistItem */
    method AddWishlistItem(item: Item) returns (r: Result<Item>)
      modifies this
      ensures (Current(), r) == AddItem(old(Current()), item)
      ensures old(Valid()) ==> Valid()
    {
      var wishlist := FindByClientId(items, item.clientId);
      if |wishlist| >= MaxItemsPerClient {
        r := Err(BadRequest(QuotaExceeded));
      } else if HasProduct(wishlist, item.productId) {
        r := Err(BadRequest(DuplicateProduct));
      } else {
        var id := GenerateSequence();
        var saved := item.(id := id);
        items := Save(items, saved);
        r := Ok(saved);
      }
      if old(Valid()) {
        AddItemPreservesInvariant(old(Current()), item);
      }
    }

    /** addWishlist: adds the items one by one, in order; the first rejection
        ends the batch and what was already saved stays saved. */
    method AddWishlist(wishlist: Wishlist) returns (r: Result<()>)
      modifies this
      ensures (Current(), r) == AddAll(old(Current()), wishlist.items)
      ensures old(Valid()) ==> Valid()
    {
      var batch := wishlist.items;
      var i := 0;
      while i < |batch|
        invariant 0 <= i <= |batch|
        invariant AddAll(Current(), batch[i..]) == AddAll(old(Current()), batch)
        invariant old(Valid()) ==> Valid()
      {
        assert batch[i..][0] == batch[i] && batch[i..][1..] == batch[i + 1..];
        var added := AddWishlistItem(batch[i]);
        if added.Err? {
          return Err(added.error);
        }
        i := i + 1;
      }
      assert batch[i..] == [];
      r := Ok(());
    }

    /** deleteWishlistItemById: removes the item with that id, if there is one;
        never fails. */
    method DeleteWishlistItemById(id: int)
      modifies this`items
      ensures items == DeleteById(old(items), id)
      ensures old(Valid()) ==> Valid()
    {
      items := DeleteById(items, id);
      if old(Valid()) {
        DeleteByIdPreservesInvariant(old(Current()), id);
      }
    }

    /** deleteWishlist: empties the store for every client; the counter is kept. */
    method DeleteWishlist()
      modifies this`items
      ensures items == []
      ensures Valid()
    {
      items := [];
      DeleteAllEmptiesEveryClient(sequence);
    }
  }
}
