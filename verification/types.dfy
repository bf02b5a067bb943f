/**
  The `Book` record of the Google Books volume shape, as the application
  reads it. Fields the code reads through `?.` or `||` are optional.
*/
module Types {

  datatype Option<+T> = None | Some(value: T) {
    /** JavaScript's `x || fallback` on a value that is absent or present. */
    function GetOr(fallback: T): T {
      match this
      case Some(v) => v
      case None => fallback
    }
  }

  datatype ImageLinks = ImageLinks(thumbnail: string)

  datatype VolumeInfo = VolumeInfo(
    title: string,
    authors: Option<seq<string>>,
    publishedDate: Option<string>,
    description: Option<string>,
    categories: Option<seq<string>>,
    imageLinks: Option<ImageLinks>,
    pageCount: Option<int>,
    averageRating: Option<real>,
    language: Option<string>)

  /** A price as the provider reports it; amounts are decimal numbers. */
  datatype ListPrice = ListPrice(amount: real, currencyCode: string)

  datatype SaleInfo = SaleInfo(listPrice: Option<ListPrice>)

  datatype Book = Book(id: string, volumeInfo: VolumeInfo, saleInfo: Option<SaleInfo>)
}
