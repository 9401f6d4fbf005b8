/** An in-memory stand-in for ICountryRepository. The table is a map from
    id to row; the operations the service uses to change it (save, delete,
    the direct name update) are methods, and every call may raise, which a
    `fails` argument decides. The queries whose meaning lives in JPQL or SQL
    (search paging, the sum, the join with city, the name search, the
    sorted listings) are given as functions of the table and are not
    interpreted further. */
module Repository {
  import opened JavaLang
  import opened Domain

  /** The result of a repository call that may raise. */
  datatype Call<T> = Done(value: T) | Raised

  /** The storage-defined queries, each a function of the table. */
  datatype Queries = Queries(
    obtenerTodos: map<Short, Country> -> seq<Country>,
    findAllByIdDescending: map<Short, Country> -> seq<Country>,
    obtenerPaginacion: (map<Short, Country>, string, PageRequest) -> Option<Page>,
    obtenerSuma: map<Short, Country> -> Option<int>,
    obtenerPaisCiudadPorIdPaisYIdCiudad: (map<Short, Country>, Short, Short) -> Option<CountryResponse>,
    obtenerNombrePaisPorPais: (map<Short, Country>, string) -> seq<string>)

  /** The `country` table: rows keyed by their id, and the next id the
      storage will generate. */
  class CountryRepository {
    var countries: map<Short, Country>
    var nextId: int
    const queries: Queries

    /** Every row sits under its own id, and every id is below the next one to
        be generated. */
    ghost predicate Valid()
      reads this
    {
      && 1 <= nextId <= SHORT_MAX + 1
      && forall id :: id in countries ==> countries[id].id == id && id < nextId
    }

    constructor (queries: Queries)
      ensures Valid()
      ensures countries == map[] && this.queries == queries
    {
      countries := map[];
      nextId := 1;
      this.queries := queries;
    }

    /** `findById(id)`: the row with that id, if any. The model takes the
        custom `obtenerPorId(id)` query to be this same primary-key lookup. */
    function FindById(id: Short, fails: bool): (r: Call<Option<Country>>)
      reads this
      ensures r.Raised? <==> fails
      ensures r.Done? ==> (r.value.Some? <==> id in countries)
      ensures r.Done? && r.value.Some? ==> r.value.value == countries[id]
    {
      if fails then Raised
      else if id in countries then Done(Some(countries[id]))
      else Done(None)
    }

    /** The derived query `findByCountryIdAndCountryOrderByLastUpdate(id,
        country)`: the row with that id whose name matches `name`. The model
        takes the match to be exact string equality. */
    function FindByIdAndName(id: Short, name: string, fails: bool): (r: Call<Option<Country>>)
      reads this
      ensures r.Raised? <==> fails
      ensures r.Done? ==> (r.value.Some? <==> id in countries && countries[id].name == name)
      ensures r.Done? && r.value.Some? ==> r.value.value == countries[id]
    {
      if fails then Raised
      else if id in countries && countries[id].name == name then Done(Some(countries[id]))
      else Done(None)
    }

    /** `obtenerTodos()`. */
    function ObtenerTodos(fails: bool): (r: Call<seq<Country>>)
      reads this
      ensures r.Raised? <==> fails
      ensures r.Done? ==> r.value == queries.obtenerTodos(countries)
    {
      if fails then Raised else Done(queries.obtenerTodos(countries))
    }

    /** `findAll(Sort.by("countryId").descending())`. */
    function FindAllByIdDescending(fails: bool): (r: Call<seq<Country>>)
      reads this
      ensures r.Raised? <==> fails
      ensures r.Done? ==> r.value == queries.findAllByIdDescending(countries)
    {
      if fails then Raised else Done(queries.findAllByIdDescending(countries))
    }

    /** `obtenerPaginacion(search, pageable)`. */
    function ObtenerPaginacion(search: string, pageable: PageRequest, fails: bool): (r: Call<Option<Page>>)
      reads this
      ensures r.Raised? <==> fails
      ensures r.Done? ==> r.value == queries.obtenerPaginacion(countries, search, pageable)
    {
      if fails then Raised else Done(queries.obtenerPaginacion(countries, search, pageable))
    }

    /** `obtenerSuma()`; SQL's SUM over no rows is null. */
    function ObtenerSuma(fails: bool): (r: Call<Option<int>>)
      reads this
      ensures r.Raised? <==> fails
      ensures r.Done? ==> r.value == queries.obtenerSuma(countries)
    {
      if fails then Raised else Done(queries.obtenerSuma(countries))
    }

    /** `obtenerPaisCiudadPorIdPaisYIdCiudad(countryId, cityId)`. */
    function ObtenerPaisCiudadPorIdPaisYIdCiudad(countryId: Short, cityId: Short, fails: bool): (r: Call<Option<CountryResponse>>)
      reads this
      ensures r.Raised? <==> fails
      ensures r.Done? ==> r.value == queries.obtenerPaisCiudadPorIdPaisYIdCiudad(countries, countryId, cityId)
    {
      if fails then Raised else Done(queries.obtenerPaisCiudadPorIdPaisYIdCiudad(countries, countryId, cityId))
    }

    /** `obtenerNombrePaisPorPais(country)`. */
    function ObtenerNombrePaisPorPais(country: string, fails: bool): (r: Call<seq<string>>)
      reads this
      ensures r.Raised? <==> fails
      ensures r.Done? ==> r.value == queries.obtenerNombrePaisPorPais(countries, country)
    {
      if fails then Raised else Done(queries.obtenerNombrePaisPorPais(countries, country))
    }

    /** `save(country)`. A country whose id is a stored one overwrites that
        row; any other country is inserted under a newly generated id, and
        the insert raises once the id space of `Short` is used up. */
    method Save(id: Option<Short>, name: string, lastUpdate: nat, fails: bool) returns (r: Call<Country>)
      requires Valid()
      modifies this
      ensures Valid()
      ensures r.Raised? ==> countries == old(countries) && nextId == old(nextId)
      ensures r.Raised? <==> fails || (!(id.Some? && id.value in old(countries)) && old(nextId) > SHORT_MAX)
      ensures r.Done? && id.Some? && id.value in old(countries) ==>
                r.value == Country(id.value, name, lastUpdate)
                && countries == old(countries)[id.value := r.value] && nextId == old(nextId)
      ensures r.Done? && !(id.Some? && id.value in old(countries)) ==>
                r.value == Country(old(nextId), name, lastUpdate)
                && countries == old(countries)[old(nextId) := r.value] && nextId == old(nextId) + 1
    {
      if fails {
        r := Raised;
      } else if id.Some? && id.value in countries {
        r := Done(Country(id.value, name, lastUpdate));
        countries := countries[id.value := r.value];
      } else if nextId > SHORT_MAX {
        r := Raised;
      } else {
        r := Done(Country(nextId, name, lastUpdate));
        countries := countries[nextId := r.value];
        nextId := nextId + 1;
      }
    }

    /** `delete(country)`: removes the row with the country's id. Returns
        whether the call raised. */
    method Delete(country: Country, fails: bool) returns (raised: bool)
      requires Valid()
      modifies this
      ensures Valid() && nextId == old(nextId)
      ensures raised == fails
      ensures countries == if raised then old(countries) else old(countries) - {country.id}
    {
      raised := fails;
      if !fails {
        countries := countries - {country.id};
      }
    }

    /** The update query behind `actualizarPais(id, country)`. The model takes
        it to write the name column of the row with that id, if there is one,
        and nothing else. Returns whether the call raised. */
    method ActualizarPais(id: Short, name: string, fails: bool) returns (raised: bool)
      requires Valid()
      modifies this
      ensures Valid() && nextId == old(nextId)
      ensures raised == fails
      ensures countries == if raised || id !in old(countries) then old(countries)
                           else old(countries)[id := old(countries)[id].(name := name)]
    {
      raised := fails;
      if !fails && id in countries {
        countries := countries[id := countries[id].(name := name)];
      }
    }
  }
}
