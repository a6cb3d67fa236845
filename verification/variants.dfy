/** The product subtypes `Clothing` and `Electronic`: their constructors
    (job11, and job13 where they extend `AbstractProduct`), and the job12
    persistence methods that keep a `product` row and an extension row
    together inside one transaction. The inherited part of each object is
    its `product`. */
module Variants {
  import opened Wrappers
  import opened Records
  import opened Rows
  import opened Storage
  import opened Catalog

  class Clothing {
    /** The fields inherited from `Product`. */
    const product: Product
    var size: string
    var color: string
    /** The field `type`. */
    var kind: string
    var materialFee: int

    /** The `clothing` row this object stands for. */
    function Extension(): ClothingRow
      reads this, product
    {
      ClothingRow(product.id, size, color, kind, materialFee)
    }

    /** Hands the nine base arguments unchanged to the `Product` constructor
        and stores the four clothing fields as given. */
    constructor (
      now: Timestamp,
      id: int := 0,
      name: string := "",
      photos: seq<string> := [],
      price: int := 0,
      description: string := "",
      quantity: int := 0,
      createdAt: Option<Timestamp> := None,
      updatedAt: Option<Timestamp> := None,
      categoryId: int := 0,
      size: string := "",
      color: string := "",
      kind: string := "",
      materialFee: int := 0)
      ensures fresh(product)
      ensures product.State() == ProductData(id, name, photos, price, description, quantity,
                                             createdAt.GetOr(now), updatedAt.GetOr(now), categoryId)
      ensures this.size == size && this.color == color && this.kind == kind && this.materialFee == materialFee
    {
      product := new Product(now, id, name, photos, price, description, quantity, createdAt, updatedAt, categoryId);
      this.size := size;
      this.color := color;
      this.kind := kind;
      this.materialFee := materialFee;
    }

    /** The joined lookup `product JOIN clothing ON id = product_id`: loads
        all thirteen fields when both rows exist, else leaves the object as
        it was. */
    method FindOneById(db: Database, id: int) returns (found: bool)
      modifies this, product
      ensures found <==>
        Find(db.tables.product, ProductKey, id).Some? && Find(db.tables.clothing, ClothingKey, id).Some?
      ensures found ==>
        && product.State() == Find(db.tables.product, ProductKey, id).value
        && Extension() == Find(db.tables.clothing, ClothingKey, id).value
        && product.id == id
      ensures !found ==> product.State() == old(product.State()) && Extension() == old(Extension())
    {
      var base := Find(db.tables.product, ProductKey, id);
      var ext := Find(db.tables.clothing, ClothingKey, id);
      if base.Some? && ext.Some? {
        product.Hydrate(base.value);
        size, color, kind, materialFee := ext.value.size, ext.value.color, ext.value.kind, ext.value.materialFee;
        found := true;
      } else {
        found := false;
      }
    }

    /** One object per row of the join, in the join's order. */
    static method FindAll(db: Database) returns (items: seq<Clothing>)
      ensures var joined := Join(db.tables.product, db.tables.clothing, ProductKey, ClothingKey);
        && |items| == |joined|
        && forall i :: 0 <= i < |items| ==>
             items[i].product.State() == joined[i].0 && items[i].Extension() == joined[i].1
    {
      var joined := Join(db.tables.product, db.tables.clothing, ProductKey, ClothingKey);
      items := [];
      for i := 0 to |joined|
        invariant |items| == i
        invariant forall j :: 0 <= j < i ==>
          items[j].product.State() == joined[j].0 && items[j].Extension() == joined[j].1
      {
        var (p, c) := joined[i];
        // both timestamps come from the row, so the current time (0 here) is not read
        var item := new Clothing(0, p.id, p.name, p.photos, p.price, p.description, p.quantity,
                                 Some(p.createdAt), Some(p.updatedAt), p.categoryId,
                                 c.size, c.color, c.kind, c.materialFee);
        items := items + [item];
      }
    }

    /** Inserts the `product` row and then the `clothing` row under one
        transaction, committing only when both inserts succeed. Any other
        ending, a raising COMMIT included, rolls the tables back and returns null; the id taken from the
        first insert is kept by the object even then. */
    method Create(db: Database, baseExec: Execution, extExec: Execution, commitRaises: bool) returns (r: Clothing?)
      requires db.Valid() && db.snapshot == None
      modifies db, product
      ensures db.Valid() && db.snapshot == None
      ensures r == if baseExec.Succeeds? && extExec.Succeeds? && !commitRaises then this else null
      ensures product.id == if baseExec.Succeeds? then old(db.nextId) else old(product.id)
      ensures product.State() == old(product.State()).(id := product.id)
      ensures db.nextId == if baseExec.Succeeds? then old(db.nextId) + 1 else old(db.nextId)
      ensures r != null ==>
        && db.tables == old(db.tables).(product := old(db.tables.product) + [product.State()],
                                        clothing := old(db.tables.clothing) + [Extension()])
        && 0 < product.id
        && Find(db.tables.product, ProductKey, product.id) == Some(product.State())
        && Find(db.tables.clothing, ClothingKey, product.id) == Some(Extension())
      ensures r == null ==> db.tables == old(db.tables)
      ensures r == null && baseExec.Succeeds? ==>
        Find(db.tables.product, ProductKey, product.id).None?
    {
      ghost var before := db.tables;
      db.BeginTransaction();
      var created := product.Create(db, baseExec);
      match created {
        case Threw(_) =>
          // the catch block
          db.RollBack();
          return null;
        case Returned(p) =>
          if p == null {
            db.RollBack();
            return null;
          }
      }
      var inserted := db.InsertClothing(Extension(), extExec);
      if inserted == Returned(true) {
        var committed := db.Commit(commitRaises);
        if committed.Returned? {
          FindAppended(before.clothing, ClothingKey, Extension());
          r := this;
        } else {
          // the catch block
          db.RollBack();
          r := null;
        }
      } else {
        // a statement that returned false, or the catch block
        db.RollBack();
        r := null;
      }
    }

    /** Updates the `product` row and then the `clothing` row under one
        transaction. Returns true only when both statements succeed and the
        transaction commits; otherwise the tables are rolled back, and an
        unsaved object (id 0) writes nothing. */
    method Update(db: Database, baseExec: Execution, extExec: Execution, commitRaises: bool) returns (ok: bool)
      requires db.Valid() && db.snapshot == None
      modifies db
      ensures db.Valid() && db.snapshot == None && db.nextId == old(db.nextId)
      ensures ok <==> product.id != 0 && baseExec.Succeeds? && extExec.Succeeds? && !commitRaises
      ensures ok ==>
        db.tables == old(db.tables).(
          product := Replace(old(db.tables.product), ProductKey, product.id, product.State()),
          clothing := Replace(old(db.tables.clothing), ClothingKey, product.id, Extension()))
      ensures ok ==>
        && Find(db.tables.product, ProductKey, product.id) ==
             (if Find(old(db.tables.product), ProductKey, product.id).Some? then Some(product.State()) else None)
        && Find(db.tables.clothing, ClothingKey, product.id) ==
             (if Find(old(db.tables.clothing), ClothingKey, product.id).Some? then Some(Extension()) else None)
      ensures !ok ==> db.tables == old(db.tables)
    {
      ghost var before := db.tables;
      db.BeginTransaction();
      var updated := product.Update(db, baseExec);
      if updated != Returned(true) {
        // parent::update returned false, or threw into the catch block
        db.RollBack();
        return false;
      }
      var written := db.UpdateClothing(Extension(), extExec);
      if written == Returned(true) {
        var committed := db.Commit(commitRaises);
        if committed.Returned? {
          FindReplaced(before.clothing, ClothingKey, product.id, Extension());
          ok := true;
        } else {
          // the catch block
          db.RollBack();
          ok := false;
        }
      } else {
        db.RollBack();
        ok := false;
      }
    }
  }

  class Electronic {
    /** The fields inherited from `Product`. */
    const product: Product
    var brand: string
    /** The field `waranty_fee`. */
    var warrantyFee: int

    /** The `electronic` row this object stands for. */
    function Extension(): ElectronicRow
      reads this, product
    {
      ElectronicRow(product.id, brand, warrantyFee)
    }

    /** Hands the nine base arguments unchanged to the `Product` constructor
        and stores brand and warranty fee as given. */
    constructor (
      now: Timestamp,
      id: int := 0,
      name: string := "",
      photos: seq<string> := [],
      price: int := 0,
      description: string := "",
      quantity: int := 0,
      createdAt: Option<Timestamp> := None,
      updatedAt: Option<Timestamp> := None,
      categoryId: int := 0,
      brand: string := "",
      warrantyFee: int := 0)
      ensures fresh(product)
      ensures product.State() == ProductData(id, name, photos, price, description, quantity,
                                             createdAt.GetOr(now), updatedAt.GetOr(now), categoryId)
      ensures this.brand == brand && this.warrantyFee == warrantyFee
    {
      product := new Product(now, id, name, photos, price, description, quantity, createdAt, updatedAt, categoryId);
      this.brand := brand;
      this.warrantyFee := warrantyFee;
    }

    /** The joined lookup `product JOIN electronic ON id = product_id`. */
    method FindOneById(db: Database, id: int) returns (found: bool)
      modifies this, product
      ensures found <==>
        Find(db.tables.product, ProductKey, id).Some? && Find(db.tables.electronic, ElectronicKey, id).Some?
      ensures found ==>
        && product.State() == Find(db.tables.product, ProductKey, id).value
        && Extension() == Find(db.tables.electronic, ElectronicKey, id).value
        && product.id == id
      ensures !found ==> product.State() == old(product.State()) && Extension() == old(Extension())
    {
      var base := Find(db.tables.product, ProductKey, id);
      var ext := Find(db.tables.electronic, ElectronicKey, id);
      if base.Some? && ext.Some? {
        product.Hydrate(base.value);
        brand, warrantyFee := ext.value.brand, ext.value.warrantyFee;
        found := true;
      } else {
        found := false;
      }
    }

    /** One object per row of the join, in the join's order. */
    static method FindAll(db: Database) returns (items: seq<Electronic>)
      ensures var joined := Join(db.tables.product, db.tables.electronic, ProductKey, ElectronicKey);
        && |items| == |joined|
        && forall i :: 0 <= i < |items| ==>
             items[i].product.State() == joined[i].0 && items[i].Extension() == joined[i].1
    {
      var joined := Join(db.tables.product, db.tables.electronic, ProductKey, ElectronicKey);
      items := [];
      for i := 0 to |joined|
        invariant |items| == i
        invariant forall j :: 0 <= j < i ==>
          items[j].product.State() == joined[j].0 && items[j].Extension() == joined[j].1
      {
        var (p, e) := joined[i];
        // both timestamps come from the row, so the current time (0 here) is not read
        var item := new Electronic(0, p.id, p.name, p.photos, p.price, p.description, p.quantity,
                                   Some(p.createdAt), Some(p.updatedAt), p.categoryId,
                                   e.brand, e.warrantyFee);
        items := items + [item];
      }
    }

    /** The `product` insert and the `electronic` insert, under one
        transaction: both rows or neither. */
    method Create(db: Database, baseExec: Execution, extExec: Execution, commitRaises: bool) returns (r: Electronic?)
      requires db.Valid() && db.snapshot == None
      modifies db, product
      ensures db.Valid() && db.snapshot == None
      ensures r == if baseExec.Succeeds? && extExec.Succeeds? && !commitRaises then this else null
      ensures product.id == if baseExec.Succeeds? then old(db.nextId) else old(product.id)
      ensures product.State() == old(product.State()).(id := product.id)
      ensures db.nextId == if baseExec.Succeeds? then old(db.nextId) + 1 else old(db.nextId)
      ensures r != null ==>
        && db.tables == old(db.tables).(product := old(db.tables.product) + [product.State()],
                                        electronic := old(db.tables.electronic) + [Extension()])
        && 0 < product.id
        && Find(db.tables.product, ProductKey, product.id) == Some(product.State())
        && Find(db.tables.electronic, ElectronicKey, product.id) == Some(Extension())
      ensures r == null ==> db.tables == old(db.tables)
      ensures r == null && baseExec.Succeeds? ==>
        Find(db.tables.product, ProductKey, product.id).None?
    {
      ghost var before := db.tables;
      db.BeginTransaction();
      var created := product.Create(db, baseExec);
      match created {
        case Threw(_) =>
          // the catch block
          db.RollBack();
          return null;
        case Returned(p) =>
          if p == null {
            db.RollBack();
            return null;
          }
      }
      var inserted := db.InsertElectronic(Extension(), extExec);
      if inserted == Returned(true) {
        var committed := db.Commit(commitRaises);
        if committed.Returned? {
          FindAppended(before.electronic, ElectronicKey, Extension());
          r := this;
        } else {
          // the catch block
          db.RollBack();
          r := null;
        }
      } else {
        db.RollBack();
        r := null;
      }
    }

    /** The `product` update and the `electronic` update, under one
        transaction: true only when both succeed and commit. */
    method Update(db: Database, baseExec: Execution, extExec: Execution, commitRaises: bool) returns (ok: bool)
      requires db.Valid() && db.snapshot == None
      modifies db
      ensures db.Valid() && db.snapshot == None && db.nextId == old(db.nextId)
      ensures ok <==> product.id != 0 && baseExec.Succeeds? && extExec.Succeeds? && !commitRaises
      ensures ok ==>
        db.tables == old(db.tables).(
          product := Replace(old(db.tables.product), ProductKey, product.id, product.State()),
          electronic := Replace(old(db.tables.electronic), ElectronicKey, product.id, Extension()))
      ensures ok ==>
        && Find(db.tables.product, ProductKey, product.id) ==
             (if Find(old(db.tables.product), ProductKey, product.id).Some? then Some(product.State()) else None)
        && Find(db.tables.electronic, ElectronicKey, product.id) ==
             (if Find(old(db.tables.electronic), ElectronicKey, product.id).Some? then Some(Extension()) else None)
      ensures !ok ==> db.tables == old(db.tables)
    {
      ghost var before := db.tables;
      db.BeginTransaction();
      var updated := product.Update(db, baseExec);
      if updated != Returned(true) {
        db.RollBack();
        return false;
      }
      var written := db.UpdateElectronic(Extension(), extExec);
      if written == Returned(true) {
        var committed := db.Commit(commitRaises);
        if committed.Returned? {
          FindReplaced(before.electronic, ElectronicKey, product.id, Extension());
          ok := true;
        } else {
          // the catch block
          db.RollBack();
          ok := false;
        }
      } else {
        db.RollBack();
        ok := false;
      }
    }
  }

  /** Saving a clothing item and loading a new object by the id it was given
      yields the same thirteen fields; when the product insert succeeded but
      the save was rolled back, the id the object kept finds nothing. */
  method CreateThenLoad(db: Database, item: Clothing, baseExec: Execution, extExec: Execution, commitRaises: bool,
                        now: Timestamp)
    returns (loaded: Clothing, found: bool)
    requires db.Valid() && db.snapshot == None
    modifies db, item.product
    ensures baseExec.Succeeds? ==> (found <==> extExec.Succeeds? && !commitRaises)
    ensures baseExec.Succeeds? && found ==> loaded.product.State() == item.product.State() && loaded.Extension() == item.Extension()
  {
    var saved := item.Create(db, baseExec, extExec, commitRaises);
    loaded := new Clothing(now);
    found := loaded.FindOneById(db, item.product.id);
  }
}
