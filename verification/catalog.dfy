/** The `Product` and `Category` entities of job03.1, job09, job11 and job12
    (the four files share this code line for line; job09 adds the reads,
    `create` and `Category::getProducts`, job11 adds `update`), and their
    persistence methods. */
module Catalog {
  import opened Wrappers
  import opened Records
  import opened Rows
  import opened Storage

  class Product {
    var id: int
    var name: string
    var photos: seq<string>
    var price: int
    var description: string
    var quantity: int
    var createdAt: Timestamp
    var updatedAt: Timestamp
    var categoryId: int

    /** The nine fields as one value. */
    function State(): ProductData
      reads this
    {
      ProductData(id, name, photos, price, description, quantity, createdAt, updatedAt, categoryId)
    }

    /** Every argument is optional; a missing timestamp is the current time
        `now`. Price and quantity are stored without the setters' check. */
    constructor (
      now: Timestamp,
      id: int := 0,
      name: string := "",
      photos: seq<string> := [],
      price: int := 0,
      description: string := "",
      quantity: int := 0,
      createdAt: Option<Timestamp> := None,
      updatedAt: Option<Timestamp> := None,
      categoryId: int := 0)
      ensures State() == ProductData(id, name, photos, price, description, quantity,
                                     createdAt.GetOr(now), updatedAt.GetOr(now), categoryId)
    {
      this.id := id;
      this.name := name;
      this.photos := photos;
      this.price := price;
      this.description := description;
      this.quantity := quantity;
      this.createdAt := createdAt.GetOr(now);
      this.updatedAt := updatedAt.GetOr(now);
      this.categoryId := categoryId;
    }

    /** `new Product()` with no argument. */
    static method NewDefault(now: Timestamp) returns (p: Product)
      ensures p.State() == ProductData(0, "", [], 0, "", 0, now, now, 0)
    {
      p := new Product(now);
    }

    method GetId() returns (r: int) ensures r == id { r := id; }
    method GetName() returns (r: string) ensures r == name { r := name; }
    method GetPhotos() returns (r: seq<string>) ensures r == photos { r := photos; }
    method GetPrice() returns (r: int) ensures r == price { r := price; }
    method GetDescription() returns (r: string) ensures r == description { r := description; }
    method GetQuantity() returns (r: int) ensures r == quantity { r := quantity; }
    method GetCreatedAt() returns (r: Timestamp) ensures r == createdAt { r := createdAt; }
    method GetUpdatedAt() returns (r: Timestamp) ensures r == updatedAt { r := updatedAt; }
    method GetCategoryId() returns (r: int) ensures r == categoryId { r := categoryId; }

    method SetName(name: string)
      modifies this
      ensures State() == old(State()).(name := name)
    {
      this.name := name;
    }

    method SetPhotos(photos: seq<string>)
      modifies this
      ensures State() == old(State()).(photos := photos)
    {
      this.photos := photos;
    }

    /** Rejects a negative price with an InvalidArgumentException and keeps
        the old one; so a price that was non-negative stays non-negative. */
    method SetPrice(price: int) returns (r: Outcome<()>)
      modifies this
      ensures r == if price < 0 then Threw(InvalidArgument("Price cannot be negative")) else Returned(())
      ensures State() == if price < 0 then old(State()) else old(State()).(price := price)
      ensures old(this.price) >= 0 ==> this.price >= 0
    {
      if price < 0 {
        return Threw(InvalidArgument("Price cannot be negative"));
      }
      this.price := price;
      r := Returned(());
    }

    method SetDescription(description: string)
      modifies this
      ensures State() == old(State()).(description := description)
    {
      this.description := description;
    }

    /** Rejects a negative quantity with an InvalidArgumentException and
        keeps the old one. */
    method SetQuantity(quantity: int) returns (r: Outcome<()>)
      modifies this
      ensures r == if quantity < 0 then Threw(InvalidArgument("Quantity cannot be negative")) else Returned(())
      ensures State() == if quantity < 0 then old(State()) else old(State()).(quantity := quantity)
      ensures old(this.quantity) >= 0 ==> this.quantity >= 0
    {
      if quantity < 0 {
        return Threw(InvalidArgument("Quantity cannot be negative"));
      }
      this.quantity := quantity;
      r := Returned(());
    }

    method SetCreatedAt(createdAt: Timestamp)
      modifies this
      ensures State() == old(State()).(createdAt := createdAt)
    {
      this.createdAt := createdAt;
    }

    method SetUpdatedAt(updatedAt: Timestamp)
      modifies this
      ensures State() == old(State()).(updatedAt := updatedAt)
    {
      this.updatedAt := updatedAt;
    }

    method SetCategoryId(categoryId: int)
      modifies this
      ensures State() == old(State()).(categoryId := categoryId)
    {
      this.categoryId := categoryId;
    }

    /** The category whose id is this product's `categoryId`, or null when
        the `category` table has no such row. */
    method GetCategory(db: Database) returns (c: Category?)
      ensures c == null <==> Find(db.tables.category, CategoryKey, categoryId).None?
      ensures c != null ==> c.State() == Find(db.tables.category, CategoryKey, categoryId).value
      ensures c != null ==> c.id == categoryId && c.State() in db.tables.category
    {
      var row := Find(db.tables.category, CategoryKey, categoryId);
      if row.Some? {
        var data := row.value;
        c := new Category(data.id, data.name, data.description, data.createdAt, data.updatedAt);
      } else {
        c := null;
      }
    }

    /** Copies a fetched row into the fields. */
    method Hydrate(row: ProductData)
      modifies this
      ensures State() == row
    {
      id, name, photos, price, description := row.id, row.name, row.photos, row.price, row.description;
      quantity, createdAt, updatedAt, categoryId := row.quantity, row.createdAt, row.updatedAt, row.categoryId;
    }

    /** Loads the product with id `id` into this object and reports whether
        there was one; when there is none, the object is left as it was. */
    method FindOneById(db: Database, id: int) returns (found: bool)
      modifies this
      ensures found <==> Find(db.tables.product, ProductKey, id).Some?
      ensures found ==> State() == Find(db.tables.product, ProductKey, id).value && this.id == id
      ensures !found ==> State() == old(State())
    {
      var row := Find(db.tables.product, ProductKey, id);
      if row.Some? {
        Hydrate(row.value);
        found := true;
      } else {
        found := false;
      }
    }

    /** One new product per row, in the order of `rows`. */
    static method FromRows(rows: seq<ProductData>) returns (products: seq<Product>)
      ensures |products| == |rows|
      ensures forall i :: 0 <= i < |rows| ==> products[i].State() == rows[i]
    {
      products := [];
      for i := 0 to |rows|
        invariant |products| == i
        invariant forall j :: 0 <= j < i ==> products[j].State() == rows[j]
      {
        var row := rows[i];
        // both timestamps come from the row, so the current time (0 here) is not read
        var p := new Product(0, row.id, row.name, row.photos, row.price, row.description,
                             row.quantity, Some(row.createdAt), Some(row.updatedAt), row.categoryId);
        products := products + [p];
      }
    }

    /** Every stored product, in fetch order. */
    static method FindAll(db: Database) returns (products: seq<Product>)
      ensures |products| == |db.tables.product|
      ensures forall i :: 0 <= i < |products| ==> products[i].State() == db.tables.product[i]
    {
      products := FromRows(db.tables.product);
    }

    /** Inserts this product; on success takes the generated id and returns
        this object, on a failed insert returns null and keeps the id, and a
        driver exception propagates. */
    method Create(db: Database, exec: Execution) returns (r: Outcome<Product?>)
      requires db.Valid()
      modifies this, db
      ensures db.Valid() && db.snapshot == old(db.snapshot)
      ensures r == match exec
        case Succeeds => Returned(this)
        case Fails => Returned(null)
        case Raises => Threw(PdoFailure)
      ensures id == if exec.Succeeds? then old(db.nextId) else old(id)
      ensures State() == old(State()).(id := id)
      ensures exec.Succeeds? ==>
        && db.tables == old(db.tables).(product := old(db.tables.product) + [State()])
        && db.nextId == old(db.nextId) + 1
        && 0 < id
        && Find(db.tables.product, ProductKey, id) == Some(State())
      ensures !exec.Succeeds? ==> db.tables == old(db.tables) && db.nextId == old(db.nextId)
    {
      var inserted := db.InsertProduct(State(), exec);
      match inserted
      case Threw(e) =>
        r := Threw(e);
      case Returned(success) =>
        if success {
          id := db.lastInsertId;
          r := Returned(this);
          FindAppended(old(db.tables.product), ProductKey, State());
        } else {
          r := Returned(null);
        }
    }

    /** Refuses an unsaved product (id 0) without touching the database;
        otherwise overwrites the row with this id and returns what the
        statement returned (true also when no row has the id). */
    method Update(db: Database, exec: Execution) returns (r: Outcome<bool>)
      requires db.Valid()
      modifies db
      ensures db.Valid() && db.snapshot == old(db.snapshot)
      ensures db.nextId == old(db.nextId) && db.lastInsertId == old(db.lastInsertId)
      ensures r == if id == 0 then Returned(false) else exec.Result()
      ensures db.tables == if id != 0 && exec.Succeeds?
        then old(db.tables).(product := Replace(old(db.tables.product), ProductKey, id, State()))
        else old(db.tables)
      ensures id != 0 && exec.Succeeds? ==>
        Find(db.tables.product, ProductKey, id) ==
          if Find(old(db.tables.product), ProductKey, id).Some? then Some(State()) else None
    {
      if id == 0 {
        return Returned(false);
      }
      r := db.UpdateProduct(State(), exec);
      if exec.Succeeds? {
        FindReplaced(old(db.tables.product), ProductKey, id, State());
      }
    }
  }

  class Category {
    var id: int
    var name: string
    var description: string
    var createdAt: Timestamp
    var updatedAt: Timestamp

    function State(): CategoryData
      reads this
    {
      CategoryData(id, name, description, createdAt, updatedAt)
    }

    constructor (id: int, name: string, description: string, createdAt: Timestamp, updatedAt: Timestamp)
      ensures State() == CategoryData(id, name, description, createdAt, updatedAt)
    {
      this.id := id;
      this.name := name;
      this.description := description;
      this.createdAt := createdAt;
      this.updatedAt := updatedAt;
    }

    method GetId() returns (r: int) ensures r == id { r := id; }
    method GetName() returns (r: string) ensures r == name { r := name; }
    method GetDescription() returns (r: string) ensures r == description { r := description; }
    method GetCreatedAt() returns (r: Timestamp) ensures r == createdAt { r := createdAt; }
    method GetUpdatedAt() returns (r: Timestamp) ensures r == updatedAt { r := updatedAt; }

    method SetName(name: string)
      modifies this
      ensures State() == old(State()).(name := name)
    {
      this.name := name;
    }

    method SetDescription(description: string)
      modifies this
      ensures State() == old(State()).(description := description)
    {
      this.description := description;
    }

    method SetCreatedAt(createdAt: Timestamp)
      modifies this
      ensures State() == old(State()).(createdAt := createdAt)
    {
      this.createdAt := createdAt;
    }

    method SetUpdatedAt(updatedAt: Timestamp)
      modifies this
      ensures State() == old(State()).(updatedAt := updatedAt)
    {
      this.updatedAt := updatedAt;
    }

    /** The products whose `category_id` is this category's id: every such
        stored product appears, as often as it is stored, and nothing else. */
    method GetProducts(db: Database) returns (products: seq<Product>)
      ensures |products| == |InCategory(db.tables.product, id)|
      ensures forall i :: 0 <= i < |products| ==> products[i].State() == InCategory(db.tables.product, id)[i]
      ensures forall i :: 0 <= i < |products| ==>
        products[i].State() in db.tables.product && products[i].categoryId == id
      ensures forall row :: row in db.tables.product && row.categoryId == id ==>
        exists i :: 0 <= i < |products| && products[i].State() == row
    {
      var rows := InCategory(db.tables.product, id);
      products := Product.FromRows(rows);
      forall row | row in db.tables.product && row.categoryId == id
        ensures exists i :: 0 <= i < |products| && products[i].State() == row
      {
        var i :| 0 <= i < |rows| && rows[i] == row;
        assert products[i].State() == row;
      }
    }
  }
}
