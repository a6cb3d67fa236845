# Catalog entities and their two-table persistence, in Dafny

This project models the `Product` / `Category` entities of a small
e-commerce catalog written in PHP as a series of exercises (`job01` …
`job13`), and the persistence protocol of its last working version
(`job12`). That protocol stores a product subtype (`Clothing`,
`Electronic`) as one `product` row plus one extension row. The rows are
written inside a transaction, which commits only when both statements
succeed.

- `wrappers.dfy` (`Wrappers`): `Option` (PHP `null` and `??`), the two
  exceptions involved, and `Outcome`, which says whether a PHP call
  returned or threw.
- `records.dfy` (`Records`): the data of a product, a category, a
  `clothing` row and an `electronic` row.
- `rows.dfy` (`Rows`): table operations on rows kept in storage order.
  `Find` is a `WHERE key = k` fetch of one row, `Replace` is an `UPDATE …
  WHERE key = k`, and `Join` is the inner join. Lemmas relate lookups to
  inserts and updates.
- `storage.dfy` (`Storage`): the database behind the PDO handle. It holds
  four tables, the `product` AUTO_INCREMENT counter, `lastInsertId` and at
  most one open transaction. `beginTransaction` takes a snapshot of the
  tables and `rollBack` restores it. Each statement the code runs is a
  method. Whether the driver executes it, returns false or throws is an
  `Execution` argument (`Succeeds`, `Fails`, `Raises`). Whether `commit`
  raises is a boolean argument; a raising `commit` leaves the transaction
  open for the catch block's `rollBack`.
- `job01.dfy` (`Job01`): the first `Product`, which has eight fields and no
  defaults.
- `catalog.dfy` (`Catalog`): `Product` and `Category` as in job03.1, job09,
  job11 and job12, with the reads, `create` and `update`.
- `variants.dfy` (`Variants`): `Clothing` and `Electronic`, with their
  constructors and their transactional `create` / `update` and joined reads.

Each mutable PHP object is a Dafny class with the same fields. A setter
states the whole new state: only its own field changes. `setPrice` and
`setQuantity` reject a negative value by throwing and keep the old value.
Constructors do not validate, so a negative price can still enter through
them. A subclass holds its inherited part as `const product: Product`, and
`parent::create` / `parent::update` become calls on that object.

`Clothing.Create` and `Electronic.Create` state the atomicity outright.
Either both rows were appended and `this` is returned, or the tables equal
their state before the call and the result is null. Two source behaviours
are kept as they are:

- After a rolled-back create whose product insert had succeeded, the
  object keeps the generated id (`job12/index.php:197`). Rollback does not
  reset the AUTO_INCREMENT counter, so that id names no row afterwards.
- `update` on an id with no row still reports success. An `UPDATE` that
  matches nothing executes successfully, and the model proves that the
  lookup by that id still finds nothing.

## Versions

The files share most of their code at identical line numbers. One Dafny
member therefore models the same lines in several files, and the table
below cites one of them.

- job03.1, job09, job11 and job12: the `Product` constructor (lines
  16-36), getters (39-73) and setters (76-112) are the same code. The
  fields (5-13) have the same names and types, but job03.1 and job09
  declare them `private`, while job11 and job12 declare them `protected`
  so that the job12 subclasses can assign them. Dafny has no visibility,
  so the model does not tell the two apart.
  `Catalog.Product` models them. job03.1 has no database methods. job09
  adds `getCategory`, `findOneById`, `findAll` and `create` (114-202), and
  job11 and job12 repeat them. job11 adds `update` (204-236), and job12
  repeats it.
- job03.1 and job09: `Category` is the same code (job03.1 lines 141-194,
  job09 lines 231-283). job09 adds `getProducts` (285-307).
- job11 and job13: the `Clothing` and `Electronic` constructors are the
  same code (job11 245-265 and 275-291, job13 54-74 and 97-113). The job13
  `AbstractProduct` constructor (16-36) is the `Product` constructor.
- job01: its own class, `Job01.Product`.

## Model

| member | source | states |
|---|---|---|
| `Job01.Product.constructor` | job01/index.php:15-24 | all eight arguments are stored as given; a negative price or quantity is accepted |
| `Job01.Product.GetId` | job01/index.php:27-29 | returns the id; no setter changes it, because every setter's contract keeps `id` |
| `Job01.Product.GetName` | job01/index.php:31-33 | returns the current name |
| `Job01.Product.GetPhotos` | job01/index.php:35-37 | returns the current photo list |
| `Job01.Product.GetPrice` | job01/index.php:39-41 | returns the current price |
| `Job01.Product.GetDescription` | job01/index.php:43-45 | returns the current description |
| `Job01.Product.GetQuantity` | job01/index.php:47-49 | returns the current quantity |
| `Job01.Product.GetCreatedAt` | job01/index.php:51-53 | returns the creation time |
| `Job01.Product.GetUpdatedAt` | job01/index.php:55-57 | returns the update time |
| `Job01.Product.SetName` | job01/index.php:60-62 | replaces the name unconditionally; no other field changes |
| `Job01.Product.SetPhotos` | job01/index.php:64-66 | replaces the photos unconditionally; no other field changes |
| `Job01.Product.SetPrice` | job01/index.php:68-73 | a negative price throws InvalidArgumentException("Price cannot be negative") and leaves the object unchanged; otherwise sets the price and nothing else |
| `Job01.Product.SetDescription` | job01/index.php:75-77 | replaces the description unconditionally; no other field changes |
| `Job01.Product.SetQuantity` | job01/index.php:79-84 | a negative quantity throws InvalidArgumentException("Quantity cannot be negative") and leaves the object unchanged; otherwise sets the quantity and nothing else |
| `Job01.Product.SetCreatedAt` | job01/index.php:86-88 | replaces the creation time only |
| `Job01.Product.SetUpdatedAt` | job01/index.php:90-92 | replaces the update time only |
| `Job01.SetThenGetPrice` | job01/index.php:39-73 | after `setPrice(p)`, `getPrice()` returns p when p >= 0 and the previous price otherwise; the id is untouched |
| `Catalog.Product.constructor` | job11/index.php:16-36 | stores every argument, with defaults id 0, '', [], 0, '', 0, category 0; a null timestamp becomes `now`, a given one is kept; price and quantity are not validated |
| `Catalog.Product.NewDefault` | job03.1/index.php:16-36 | `new Product()` yields id 0, empty name, no photos, price 0, empty description, quantity 0, both timestamps `now`, category 0 |
| `Catalog.Product.GetId` | job12/index.php:39-41 | returns the current id |
| `Catalog.Product.GetName` | job12/index.php:43-45 | returns the current name |
| `Catalog.Product.GetPhotos` | job12/index.php:47-49 | returns the current photo list |
| `Catalog.Product.GetPrice` | job12/index.php:51-53 | returns the current price |
| `Catalog.Product.GetDescription` | job12/index.php:55-57 | returns the current description |
| `Catalog.Product.GetQuantity` | job12/index.php:59-61 | returns the current quantity |
| `Catalog.Product.GetCreatedAt` | job12/index.php:63-65 | returns the creation time |
| `Catalog.Product.GetUpdatedAt` | job12/index.php:67-69 | returns the update time |
| `Catalog.Product.GetCategoryId` | job12/index.php:71-73 | returns the category id |
| `Catalog.Product.SetName` | job12/index.php:76-78 | replaces the name unconditionally; no other field changes |
| `Catalog.Product.SetPhotos` | job12/index.php:80-82 | replaces the photos unconditionally; no other field changes |
| `Catalog.Product.SetPrice` | job12/index.php:84-89 | p < 0 throws InvalidArgumentException and leaves every field as it was; p >= 0 sets the price and nothing else; a non-negative price stays non-negative |
| `Catalog.Product.SetDescription` | job12/index.php:91-93 | replaces the description unconditionally; no other field changes |
| `Catalog.Product.SetQuantity` | job12/index.php:95-100 | q < 0 throws InvalidArgumentException and leaves every field as it was; q >= 0 sets the quantity and nothing else; a non-negative quantity stays non-negative |
| `Catalog.Product.SetCreatedAt` | job12/index.php:102-104 | replaces the creation time only |
| `Catalog.Product.SetUpdatedAt` | job12/index.php:106-108 | replaces the update time only |
| `Catalog.Product.SetCategoryId` | job12/index.php:110-112 | replaces the category id unconditionally; no other field changes |
| `Catalog.Product.GetCategory` | job09/index.php:115-131 | null exactly when no `category` row has the product's category id; otherwise a Category whose five fields are that row |
| `Catalog.Product.FindOneById` | job09/index.php:134-153 | true exactly when a `product` row has the id, and then all nine fields equal that row; false leaves the object unchanged |
| `Catalog.Product.Hydrate` | job09/index.php:139-147 | after the copy the object's nine fields are exactly the fetched row (also job12/index.php:273-281 and 421-429) |
| `Catalog.Product.FromRows` | job09/index.php:160-175 | one Product per fetched row, in the same order, each holding that row's nine fields |
| `Catalog.Product.FindAll` | job09/index.php:156-176 | exactly one Product per stored row, in fetch order, equal to it field by field |
| `Catalog.Product.Create` | job12/index.php:179-202 | a successful insert gives the object the new, positive id, appends its row with the other fields unchanged, and returns the object, which a lookup by the new id then finds; a failed insert returns null, writes nothing and keeps the id; a driver exception propagates with nothing written |
| `Catalog.Product.Update` | job11/index.php:205-236 | id 0 returns false and touches nothing; otherwise returns the statement's result, and on success every row with this id holds the object's fields, so a lookup yields the object exactly when the row existed |
| `Catalog.Category.constructor` | job03.1/index.php:149-155 | stores its five arguments verbatim |
| `Catalog.Category.GetId` | job03.1/index.php:158-160 | returns the id |
| `Catalog.Category.GetName` | job03.1/index.php:162-164 | returns the name |
| `Catalog.Category.GetDescription` | job03.1/index.php:166-168 | returns the description |
| `Catalog.Category.GetCreatedAt` | job03.1/index.php:170-172 | returns the creation time |
| `Catalog.Category.GetUpdatedAt` | job03.1/index.php:174-176 | returns the update time |
| `Catalog.Category.SetName` | job09/index.php:269-271 | replaces the name only, without validation |
| `Catalog.Category.SetDescription` | job09/index.php:273-275 | replaces the description only, without validation |
| `Catalog.Category.SetCreatedAt` | job09/index.php:277-279 | replaces the creation time only |
| `Catalog.Category.SetUpdatedAt` | job09/index.php:281-283 | replaces the update time only |
| `Catalog.Category.GetProducts` | job09/index.php:286-307 | the result is, index by index, the filtered rows of `Storage.InCategory`: every returned product is a stored row with this category's id, every such row is returned, and each as often as it is stored |
| `Storage.InCategory` | job09/index.php:287-289 | the filtered rows are exactly the stored rows whose category id matches, each kept as many times as it is stored and every other row dropped |
| `Storage.Database.BeginTransaction` | job12/index.php:319 | opens a transaction whose snapshot is the current tables; nothing else changes |
| `Storage.Database.Commit` | job12/index.php:341 | closes the transaction and keeps the tables as written; when the driver raises (exception mode, job12/index.php:534) it throws and leaves the transaction open, the tables unchanged |
| `Storage.Database.RollBack` | job12/index.php:323 | restores the tables of the snapshot and closes the transaction; the AUTO_INCREMENT counter keeps the ids already handed out |
| `Storage.Database.InsertProduct` | job12/index.php:180-194 | on success appends the row with the next counter value as id, advances the counter and sets lastInsertId; otherwise the tables are unchanged; the schema invariant is kept |
| `Storage.Database.UpdateProduct` | job12/index.php:210-233 | on success every row with the id takes the new values and ids are unchanged; otherwise nothing changes |
| `Storage.Database.InsertClothing` | job12/index.php:327-338 | on success appends the `clothing` row, otherwise nothing changes |
| `Storage.Database.UpdateClothing` | job12/index.php:362-377 | on success every `clothing` row with the product id takes the new values, otherwise nothing changes |
| `Storage.Database.InsertElectronic` | job12/index.php:471-480 | on success appends the `electronic` row, otherwise nothing changes |
| `Storage.Database.UpdateElectronic` | job12/index.php:504-515 | on success every `electronic` row with the product id takes the new values, otherwise nothing changes |
| `Rows.Find` | job09/index.php:135-137 | nothing is found exactly when no row has the key; a found row is in the table and has the key |
| `Rows.FindFirst` | job09/index.php:135-137 | the fetched row is the first row in storage order with the key |
| `Rows.FindAppended` | job12/index.php:196-198 | after an insert under a key no row had, the lookup by that key returns the inserted row |
| `Rows.FindAppendedOther` | job12/index.php:180-194 | an insert does not change the lookup of any other key |
| `Rows.Replace` | job11/index.php:210-233 | an update keeps the table's length and order; rows with the key become the new row, every other row is unchanged |
| `Rows.FindReplaced` | job11/index.php:210-235 | after the update, the lookup by the key yields the new row exactly when a row with the key existed; an update of a missing key creates nothing |
| `Rows.FindReplacedOther` | job11/index.php:210-233 | an update does not change the lookup of any other key |
| `Rows.Matches` | job12/index.php:293 | for one `product` row: only extension rows whose product_id is its id, paired with it, and every such row appears |
| `Rows.MatchesMultiplicity` | job12/index.php:293 | each such pair appears exactly as often as its extension row is stored, and no other pair appears |
| `Rows.Join` | job12/index.php:293 | the join holds only pairs whose keys agree, taken from the two tables, and every such pair appears |
| `Rows.JoinMultiplicity` | job12/index.php:293 | each agreeing pair appears as often as the product of its two rows' counts, so once when each row is stored once; no other pair appears |
| `Variants.Clothing.constructor` | job11/index.php:245-265 | the nine base arguments reach the Product constructor unchanged; size, color, type and material fee are stored as given |
| `Variants.Clothing.FindOneById` | job12/index.php:267-290 | true exactly when a `product` row with the id and a `clothing` row with that product_id both exist, and then all thirteen fields come from those rows; false leaves the object unchanged |
| `Variants.Clothing.FindAll` | job12/index.php:292-316 | one Clothing per joined row, in join order, holding that row's thirteen fields |
| `Variants.Clothing.Create` | job12/index.php:318-351 | commits and returns the object exactly when both inserts succeed and COMMIT does not raise; then both rows were appended, the clothing row's product_id is the new id, and both lookups find them; otherwise the tables equal their pre-call state and the result is null; the object keeps the generated id after a rollback, and that id names no row |
| `Variants.Clothing.Update` | job12/index.php:353-390 | true exactly when the id is not 0, both updates succeed and COMMIT does not raise; then both tables are updated by the id; otherwise the tables are unchanged |
| `Variants.Electronic.constructor` | job11/index.php:275-291 | the nine base arguments reach the Product constructor unchanged; brand and warranty fee are stored as given |
| `Variants.Electronic.FindOneById` | job12/index.php:415-436 | true exactly when a `product` row with the id and an `electronic` row with that product_id both exist, and then all eleven fields come from those rows; false leaves the object unchanged |
| `Variants.Electronic.FindAll` | job12/index.php:438-460 | one Electronic per joined row, in join order, holding that row's eleven fields |
| `Variants.Electronic.Create` | job12/index.php:462-493 | both rows are written and the object is returned (both inserts succeeded and COMMIT did not raise), or the tables are unchanged and the result is null; the electronic row's product_id is the new id; the generated id is kept after a rollback |
| `Variants.Electronic.Update` | job12/index.php:495-528 | true exactly when the id is not 0, both updates succeed and COMMIT does not raise; otherwise rolled back with the tables unchanged, and with id 0 nothing is written |
| `Variants.CreateThenLoad` | job12/index.php:267-351 | when the product insert succeeds, a new object loaded by the kept id is found exactly when the clothing insert also succeeded and COMMIT did not raise, and then it equals the saved one in all thirteen fields |

## Left out

- The database connection and the demonstration scripts (`new PDO`, `die`,
  `var_dump`, `echo`) are I/O.
- SQL text and prepared statements are not modelled. Each statement is
  one method, and its outcome (succeeds, returns false, raises) is an
  argument. How MySQL
  produces `lastInsertId` is reduced to a counter. A failed insert that
  still consumes an AUTO_INCREMENT value is not modelled.
- `json_encode` / `json_decode` of `photos`: the list is stored as given.
  A column that does not decode (a TypeError in PHP) is not modelled.
- `DateTime`: timestamps are opaque integers and the current time is the
  `now` argument. The two `new DateTime()` calls of one constructor are
  read as one instant. Writing with `Y-m-d H:i:s` drops fractions of a
  second; the model stores timestamps exactly.
- PHP type juggling of fetched column values (strings into `int` fields)
  is not modelled.
- `Category` is used by `getCategory` in job11 and job12, but neither file
  declares it. The model uses the job09 `Category`.
- The abstract method stubs of job13 (lines 76-90 and 115-129) have empty
  bodies, and the `AbstractProduct` declarations have no behaviour.
- The demo's static calls of instance methods (`Clothing::findOneById`) are
  not modelled.
- Concurrency and isolation between transactions: one call at a time.
- Nested `beginTransaction`, and `commit` / `rollBack` with no open
  transaction, throw in PDO. The source never does these; the
  `Database` methods require the right transaction state.
- `Storage.Database.InsertClothing` and `Storage.Database.InsertElectronic`
  require the product id to be one the counter has already handed out. The
  source only passes the id it has just received.
- The source has no getters or setters for the clothing and electronic
  fields; the model has none either.
- Join order: SQL does not fix it. `Rows.Join` enumerates product-major.
- `Catalog.Category.GetProducts`: states which products are returned and how often, but
  not their order, which SQL leaves unspecified without `ORDER BY`.
- `Storage.InCategory`: states membership and counts, not the order of the rows.
- `Catalog.Product.GetCategory`, `Catalog.Product.FindOneById`,
  `Catalog.Product.FindAll`, `Catalog.Category.GetProducts`,
  `Variants.Clothing.FindOneById`, `Variants.Clothing.FindAll`,
  `Variants.Electronic.FindOneById` and `Variants.Electronic.FindAll`: a
  SELECT that raises is not modelled. In the source that exception
  propagates to the caller; the model's reads always return.
- `Storage.Database.BeginTransaction` and `Storage.Database.RollBack`
  always succeed. In the source a raising `beginTransaction` propagates
  from `create` and `update`, and a raising `rollBack` inside the catch
  block escapes it.

Behaviours of the code that a reader might not expect, which the model
keeps:

- Constructors accept negative prices and quantities.
- `Product::create` on its own lets a driver exception propagate.
- `Clothing::update` and `Electronic::update` open a transaction before
  the base update refuses id 0, then roll it back.
- An `update` whose id has no row reports success.
