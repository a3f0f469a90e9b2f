/** Menu items as the server reads them from the "menu" collection. */
module Catalog {

  /** A menu document. Each field is the text a template literal makes of
      it (`${item.category}`, `${item.name}`, `${item.price}`): a missing
      field reads "undefined", and a price is whatever text its stored
      number prints as. */
  datatype Item = Item(id: string, category: string, name: string, price: string)
}
