/** Value types of the wishlist domain. */
module Model {

  datatype Option<+T> = None | Some(value: T)

  /** A product on a client's wishlist. `id` is assigned by the service from the
      id counter when the item is added; whatever id an incoming item carries is
      overwritten. `date` is the creation date, kept opaque (a day number). */
  datatype Item = Item(
    id: int,
    clientId: int,
    clientName: Option<string>,
    productId: int,
    productName: Option<string>,
    date: int
  )

  /** A transient, ordered grouping of items: the shape a client query returns
      and the batch add accepts. It is never stored as such. */
  datatype Wishlist = Wishlist(items: seq<Item>)
}
