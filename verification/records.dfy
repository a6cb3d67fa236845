/** The data carried by the catalog entities and stored in the tables
    `product`, `category`, `clothing` and `electronic`. */
module Records {

  /** A DateTime value. Only equality matters to the modelled code; the
      `Y-m-d H:i:s` text form used in the tables is not modelled. */
  type Timestamp = int

  /** The nine fields of a product, which are also the nine columns of a
      `product` row (`photos` is kept as the decoded list of URLs). */
  datatype ProductData = ProductData(
    id: int,
    name: string,
    photos: seq<string>,
    price: int,
    description: string,
    quantity: int,
    createdAt: Timestamp,
    updatedAt: Timestamp,
    categoryId: int)

  /** The five fields of a category, and the columns of a `category` row. */
  datatype CategoryData = CategoryData(
    id: int,
    name: string,
    description: string,
    createdAt: Timestamp,
    updatedAt: Timestamp)

  /** A `clothing` row: the clothing-specific fields keyed by `product_id`.
      `kind` is the column `type`. */
  datatype ClothingRow = ClothingRow(
    productId: int,
    size: string,
    color: string,
    kind: string,
    materialFee: int)

  /** An `electronic` row: the electronic-specific fields keyed by `product_id`.
      `warrantyFee` is the column `waranty_fee`. */
  datatype ElectronicRow = ElectronicRow(
    productId: int,
    brand: string,
    warrantyFee: int)
}
