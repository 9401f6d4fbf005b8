/** The values the country service works with: the `country` table's row,
    the request body, the join projection, paging requests and pages, and
    the outcome of a service call. */
module Domain {
  import opened JavaLang

  /** Java `Short`, the type of country and city ids. */
  type Short = x: int | -0x8000 <= x < 0x8000

  const SHORT_MAX: int := 0x7fff

  /** A row of the `country` table. `lastUpdate` is a tick of the clock that
      stands in for `new Date()`. */
  datatype Country = Country(id: Short, name: string, lastUpdate: nat)

  /** A row of the `city` table, as far as the join needs it. */
  datatype City = City(id: Short, name: string, countryId: Short)

  /** The projection the country-and-city join returns. */
  datatype CountryResponse = CountryResponse(country: Country, city: City)

  /** The request body of create and update, `{ "country": ... }`; its one
      field may be null. */
  datatype CountryRequest = CountryRequest(country: Option<string>)

  datatype Direction = Asc | Desc

  /** `PageRequest.of(page, size, Sort.by(new Sort.Order(direction, property)))`. */
  datatype PageRequest = PageRequest(page: Int32, size: Int32, direction: Direction, property: string)

  /** A `Page<Country>`: the number of matching rows and the rows of one page. */
  datatype Page = Page(totalElements: int, content: seq<Country>)

  /** How a service call ends abnormally: with an `InternalException` and
      its message, or with some other exception that nothing translated. */
  datatype Failure = Internal(message: string) | Unchecked

  /** The outcome of a service call: its return value, or the exception it
      throws. */
  datatype Result<T> = Ok(value: T) | Err(failure: Failure) {
    /** The same outcome with the return value converted by `f`. */
    function MapValue<U>(f: T -> U): (r: Result<U>)
      ensures r.Ok? <==> Ok?
      ensures Ok? ==> r.value == f(value)
      ensures Err? ==> r.failure == failure
    {
      match this
      case Ok(v) => Ok(f(v))
      case Err(e) => Err(e)
    }

    /** True when the call threw an InternalException, or did not throw. */
    predicate IsTranslated() {
      Err? ==> failure.Internal?
    }
  }
}
