/** The product record the warehouse stores. */
module Products {

  /** The closed set of product categories. */
  datatype Category = Fruit | Vegetable | Meat | Fish | Dairy

  /** A calendar date as a day number. The store only asks whether one date
      is before another and whether two dates are equal, so any total order
      with equality serves. */
  type Date = int

  /** `LocalDate.isBefore`. */
  predicate IsBefore(a: Date, b: Date) {
    a < b
  }

  /** An immutable product record. Nothing about the record itself forces
      its fields to be valid; only the validating add checks them. */
  datatype Product = Product(
    id: int,
    name: string,
    category: Category,
    rating: int,
    createdDate: Date,
    lastModifiedDate: Date)
}
