/** The database behind the PDO connection: four tables, the AUTO_INCREMENT
    counter of `product`, and at most one open transaction. Statements are
    not parsed; each one the code runs is a method here, and whether the
    driver executes it, reports failure or raises is the caller's
    `Execution` argument. */
module Storage {
  import opened Wrappers
  import opened Records
  import opened Rows

  /** The contents of the four tables, each in storage order. */
  datatype Tables = Tables(
    product: seq<ProductData>,
    category: seq<CategoryData>,
    clothing: seq<ClothingRow>,
    electronic: seq<ElectronicRow>)

  function ProductKey(r: ProductData): int { r.id }
  function CategoryKey(r: CategoryData): int { r.id }
  function ClothingKey(r: ClothingRow): int { r.productId }
  function ElectronicKey(r: ElectronicRow): int { r.productId }

  /** What the schema guarantees: product ids are positive and unique, and
      every id a table mentions was handed out by the counter before `nextId`. */
  ghost predicate TablesValid(t: Tables, nextId: int) {
    && (forall i :: 0 <= i < |t.product| ==> 0 < t.product[i].id)
    && KeysDistinct(t.product, ProductKey)
    && KeysBelow(t.product, ProductKey, nextId)
    && KeysBelow(t.clothing, ClothingKey, nextId)
    && KeysBelow(t.electronic, ElectronicKey, nextId)
  }

  /** What the driver does with one statement. */
  datatype Execution = Succeeds | Fails | Raises {
    /** What `PDOStatement::execute` then does: return true, return false, or throw. */
    function Result(): Outcome<bool> {
      match this
      case Succeeds => Returned(true)
      case Fails => Returned(false)
      case Raises => Threw(PdoFailure)
    }
  }

  /** `SELECT * FROM product WHERE category_id = :category_id`: the products
      of one category, in storage order. */
  function InCategory(rows: seq<ProductData>, categoryId: int): (s: seq<ProductData>)
    ensures |s| <= |rows|
    ensures forall r :: r in s <==> r in rows && r.categoryId == categoryId
    ensures forall r :: multiset(s)[r] == if r.categoryId == categoryId then multiset(rows)[r] else 0
  {
    if rows == [] then []
    else
      var rest := InCategory(rows[1..], categoryId);
      assert forall r :: r in rows <==> r == rows[0] || r in rows[1..];
      assert rows == [rows[0]] + rows[1..];
      assert multiset(rows) == multiset{rows[0]} + multiset(rows[1..]);
      if rows[0].categoryId == categoryId then [rows[0]] + rest else rest
  }

  class Database {
    var tables: Tables
    /** The next value of the `product` AUTO_INCREMENT counter. */
    var nextId: int
    /** What `PDO::lastInsertId` returns. */
    var lastInsertId: int
    /** The tables as they were at `beginTransaction`, while a transaction is open. */
    var snapshot: Option<Tables>

    ghost predicate Valid()
      reads this
    {
      && 0 < nextId
      && TablesValid(tables, nextId)
      && (snapshot.Some? ==> TablesValid(snapshot.value, nextId))
    }

    constructor (initial: Tables, nextId: int)
      requires 0 < nextId && TablesValid(initial, nextId)
      ensures Valid()
      ensures tables == initial && this.nextId == nextId && lastInsertId == 0 && snapshot == None
    {
      tables, this.nextId, lastInsertId, snapshot := initial, nextId, 0, None;
    }

    method BeginTransaction()
      requires Valid() && snapshot == None
      modifies this
      ensures Valid()
      ensures snapshot == Some(tables)
      ensures tables == old(tables) && nextId == old(nextId) && lastInsertId == old(lastInsertId)
    {
      snapshot := Some(tables);
    }

    /** `PDO::commit` under `ERRMODE_EXCEPTION`: either the transaction ends
        with its changes kept, or the driver raises and the transaction stays
        open, so that a `rollBack` can still undo it. */
    method Commit(raises: bool) returns (r: Outcome<()>)
      requires Valid() && snapshot.Some?
      modifies this
      ensures Valid()
      ensures r == if raises then Threw(PdoFailure) else Returned(())
      ensures snapshot == if raises then old(snapshot) else None
      ensures tables == old(tables) && nextId == old(nextId) && lastInsertId == old(lastInsertId)
    {
      if raises {
        r := Threw(PdoFailure);
      } else {
        snapshot := None;
        r := Returned(());
      }
    }

    /** Restores the tables of the snapshot. The AUTO_INCREMENT counter is
        not part of it: ids handed out inside the transaction stay used. */
    method RollBack()
      requires Valid() && snapshot.Some?
      modifies this
      ensures Valid()
      ensures snapshot == None
      ensures tables == old(snapshot.value)
      ensures nextId == old(nextId) && lastInsertId == old(lastInsertId)
    {
      tables := snapshot.value;
      snapshot := None;
    }

    /** `INSERT INTO product (name, ..., category_id)`: every column but `id`
        comes from `row`; the id is drawn from the counter. */
    method InsertProduct(row: ProductData, exec: Execution) returns (r: Outcome<bool>)
      requires Valid()
      modifies this
      ensures Valid() && snapshot == old(snapshot)
      ensures r == exec.Result()
      ensures exec.Succeeds? ==>
        && tables == old(tables).(product := old(tables.product) + [row.(id := old(nextId))])
        && nextId == old(nextId) + 1
        && lastInsertId == old(nextId)
      ensures !exec.Succeeds? ==>
        tables == old(tables) && nextId == old(nextId) && lastInsertId == old(lastInsertId)
    {
      r := exec.Result();
      if exec.Succeeds? {
        tables := tables.(product := tables.product + [row.(id := nextId)]);
        lastInsertId := nextId;
        nextId := nextId + 1;
      }
    }

    /** `UPDATE product SET ... WHERE id = :id`: every column of the row with
        `row.id` takes the value in `row`. No matching row is not a failure. */
    method UpdateProduct(row: ProductData, exec: Execution) returns (r: Outcome<bool>)
      requires Valid()
      modifies this
      ensures Valid() && snapshot == old(snapshot)
      ensures r == exec.Result()
      ensures tables == if exec.Succeeds?
        then old(tables).(product := Replace(old(tables.product), ProductKey, row.id, row))
        else old(tables)
      ensures nextId == old(nextId) && lastInsertId == old(lastInsertId)
    {
      r := exec.Result();
      if exec.Succeeds? {
        tables := tables.(product := Replace(tables.product, ProductKey, row.id, row));
      }
    }

    /** `INSERT INTO clothing (product_id, size, color, type, material_fee)`. */
    method InsertClothing(row: ClothingRow, exec: Execution) returns (r: Outcome<bool>)
      requires Valid() && row.productId < nextId
      modifies this
      ensures Valid() && snapshot == old(snapshot)
      ensures r == exec.Result()
      ensures tables == if exec.Succeeds?
        then old(tables).(clothing := old(tables.clothing) + [row])
        else old(tables)
      ensures nextId == old(nextId) && lastInsertId == old(lastInsertId)
    {
      r := exec.Result();
      if exec.Succeeds? {
        tables := tables.(clothing := tables.clothing + [row]);
      }
    }

    /** `UPDATE clothing SET ... WHERE product_id = :product_id`. */
    method UpdateClothing(row: ClothingRow, exec: Execution) returns (r: Outcome<bool>)
      requires Valid()
      modifies this
      ensures Valid() && snapshot == old(snapshot)
      ensures r == exec.Result()
      ensures tables == if exec.Succeeds?
        then old(tables).(clothing := Replace(old(tables.clothing), ClothingKey, row.productId, row))
        else old(tables)
      ensures nextId == old(nextId) && lastInsertId == old(lastInsertId)
    {
      r := exec.Result();
      if exec.Succeeds? {
        tables := tables.(clothing := Replace(tables.clothing, ClothingKey, row.productId, row));
      }
    }

    /** `INSERT INTO electronic (product_id, brand, waranty_fee)`. */
    method InsertElectronic(row: ElectronicRow, exec: Execution) returns (r: Outcome<bool>)
      requires Valid() && row.productId < nextId
      modifies this
      ensures Valid() && snapshot == old(snapshot)
      ensures r == exec.Result()
      ensures tables == if exec.Succeeds?
        then old(tables).(electronic := old(tables.electronic) + [row])
        else old(tables)
      ensures nextId == old(nextId) && lastInsertId == old(lastInsertId)
    {
      r := exec.Result();
      if exec.Succeeds? {
        tables := tables.(electronic := tables.electronic + [row]);
      }
    }

    /** `UPDATE electronic SET ... WHERE product_id = :product_id`. */
    method UpdateElectronic(row: ElectronicRow, exec: Execution) returns (r: Outcome<bool>)
      requires Valid()
      modifies this
      ensures Valid() && snapshot == old(snapshot)
      ensures r == exec.Result()
      ensures tables == if exec.Succeeds?
        then old(tables).(electronic := Replace(old(tables.electronic), ElectronicKey, row.productId, row))
        else old(tables)
      ensures nextId == old(nextId) && lastInsertId == old(lastInsertId)
    {
      r := exec.Result();
      if exec.Succeeds? {
        tables := tables.(electronic := Replace(tables.electronic, ElectronicKey, row.productId, row));
      }
    }
  }
}
