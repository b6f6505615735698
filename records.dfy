/** The normalised record that the loader appends for every data row. */
module Records {

  /**
   * One price-list row after normalisation: the dictionary with keys
   * product, price, weight, file and price_per_kg.
   */
  datatype Record = Record(product: string, price: real, weight: real, file: string, pricePerKg: real)

  /** The price per kilogram: the price over the weight, or 0 when the weight is not positive. */
  function UnitPrice(price: real, weight: real): (u: real)
    ensures weight > 0.0 ==> u * weight == price
    ensures weight <= 0.0 ==> u == 0.0
  {
    if weight > 0.0 then price / weight else 0.0
  }
}
