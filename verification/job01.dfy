/** The first `Product` (job01): eight fields, no category, a constructor
    that takes every field, getters, and setters for all fields but `id`. */
module Job01 {
  import opened Wrappers
  import opened Records

  /** The eight fields as one value. */
  datatype Fields = Fields(
    id: int,
    name: string,
    photos: seq<string>,
    price: int,
    description: string,
    quantity: int,
    createdAt: Timestamp,
    updatedAt: Timestamp)

  class Product {
    var id: int
    var name: string
    var photos: seq<string>
    var price: int
    var description: string
    var quantity: int
    var createdAt: Timestamp
    var updatedAt: Timestamp

    function State(): Fields
      reads this
    {
      Fields(id, name, photos, price, description, quantity, createdAt, updatedAt)
    }

    /** Stores its eight arguments as given; price and quantity are not checked. */
    constructor (id: int, name: string, photos: seq<string>, price: int, description: string,
                 quantity: int, createdAt: Timestamp, updatedAt: Timestamp)
      ensures State() == Fields(id, name, photos, price, description, quantity, createdAt, updatedAt)
    {
      this.id := id;
      this.name := name;
      this.photos := photos;
      this.price := price;
      this.description := description;
      this.quantity := quantity;
      this.createdAt := createdAt;
      this.updatedAt := updatedAt;
    }

    method GetId() returns (r: int) ensures r == id { r := id; }
    method GetName() returns (r: string) ensures r == name { r := name; }
    method GetPhotos() returns (r: seq<string>) ensures r == photos { r := photos; }
    method GetPrice() returns (r: int) ensures r == price { r := price; }
    method GetDescription() returns (r: string) ensures r == description { r := description; }
    method GetQuantity() returns (r: int) ensures r == quantity { r := quantity; }
    method GetCreatedAt() returns (r: Timestamp) ensures r == createdAt { r := createdAt; }
    method GetUpdatedAt() returns (r: Timestamp) ensures r == updatedAt { r := updatedAt; }

    method SetName(name: string)
      modifies this
      ensures State() == old(State()).(name := name)
    {
      this.name := name;
    }

    method SetPhotos(photos: seq<string>)
      modifies this
      ensures State() == old(State()).(photos := photos)
    {
      this.photos := photos;
    }

    /** Rejects a negative price with an InvalidArgumentException and keeps the old one. */
    method SetPrice(price: int) returns (r: Outcome<()>)
      modifies this
      ensures r == if price < 0 then Threw(InvalidArgument("Price cannot be negative")) else Returned(())
      ensures State() == if price < 0 then old(State()) else old(State()).(price := price)
    {
      if price < 0 {
        return Threw(InvalidArgument("Price cannot be negative"));
      }
      this.price := price;
      r := Returned(());
    }

    method SetDescription(description: string)
      modifies this
      ensures State() == old(State()).(description := description)
    {
      this.description := description;
    }

    /** Rejects a negative quantity with an InvalidArgumentException and keeps the old one. */
    method SetQuantity(quantity: int) returns (r: Outcome<()>)
      modifies this
      ensures r == if quantity < 0 then Threw(InvalidArgument("Quantity cannot be negative")) else Returned(())
      ensures State() == if quantity < 0 then old(State()) else old(State()).(quantity := quantity)
    {
      if quantity < 0 {
        return Threw(InvalidArgument("Quantity cannot be negative"));
      }
      this.quantity := quantity;
      r := Returned(());
    }

    method SetCreatedAt(createdAt: Timestamp)
      modifies this
      ensures State() == old(State()).(createdAt := createdAt)
    {
      this.createdAt := createdAt;
    }

    method SetUpdatedAt(updatedAt: Timestamp)
      modifies this
      ensures State() == old(State()).(updatedAt := updatedAt)
    {
      this.updatedAt := updatedAt;
    }
  }

  /** A price set through the setter is what the getter returns; a negative
      one leaves the getter's answer as before. The id is never changed. */
  method SetThenGetPrice(p: Product, price: int) returns (got: int)
    modifies p
    ensures got == if price < 0 then old(p.price) else price
    ensures p.id == old(p.id)
  {
    var _ := p.SetPrice(price);
    got := p.GetPrice();
  }
}
