/** CountryServiceImpl: every operation validates its nullable inputs
    before it touches the repository, makes its repository calls, and turns
    any failure of those calls into one InternalException with its own
    message. The one exception is `actualizarPais`, which has no try/catch.

    Read operations change nothing and are functions of the table. Write
    operations are methods that change the repository; each is proved
    against a specification function over a `Store` snapshot (the table,
    the next generated id and the clock), and the properties of the writes
    are lemmas about those functions. */
module Service {
  import opened JavaLang
  import opened Domain
  import opened Repository

  // ---------------------------------------------------------------------
  // Messages of the InternalExceptions the service throws

  const TODOS_ERROR := "Ocurrio un error al obtener los paises"
  const ID_Y_NOMBRE_INVALIDOS := "El id del país y el nombre no deben ser nulos o vacíos"
  const ID_INVALIDO := "El id del país no debe ser nulo o vacío"
  const PAGINACION_ERROR := "Ocurrio un eror al obtener la paginación de los paises"
  const SUMA_ERROR := "Ocurrio un eror al obtener la suma de los paises"
  const PAIS_CIUDAD_INVALIDOS := "El id del país y el id de ciudad no debe ser nulos o vacíos"
  const NOMBRE_INVALIDO := "El nombre del país no debe ser nulo o vacío"
  const GUARDAR_ERROR := "Ocurrio un error al guardar el país"
  const GUARDAR_INVALIDO := "El nombre del país no deben nulo o vacío"
  const ACTUALIZAR_ERROR := "Ocurrio un error al actualizar el país"
  const ACTUALIZAR_INVALIDO := "El nombre del país y el id del país no deben nulos o vacíos"
  const ACTUALIZAR_PAIS_INVALIDO := "El id del país y el país no deben ser nulos o vacíos"
  const BORRAR_NO_EXISTE := "El id del país no existe en base de datos"

  /** The message of a failing `obtenerPorIdYPais`: it names the id, then
      the name as given. */
  function IdYNombreError(id: Short, country: string): (m: string)
    ensures var p := "Ocurrio un error al obtener el país con el id y el nombre : ";
            && |m| == |p| + |IntToString(id)| + 3 + |country|
            && m[|p|..|p| + |IntToString(id)|] == IntToString(id)
            && m[|m| - |country|..] == country
  {
    "Ocurrio un error al obtener el país con el id y el nombre : " + IntToString(id) + " - " + country
  }

  /** The message of a failing `obtenerPorId`: it ends with the id. */
  function PorIdError(id: Short): (m: string)
    ensures |m| > |IntToString(id)| && m[|m| - |IntToString(id)|..] == IntToString(id)
  {
    "Ocurrio un error al obtener el país con el id: " + IntToString(id)
  }

  /** The message of a failing join: it names the country id, then the city
      id, and ends with two spaces. */
  function PaisCiudadError(countryId: Short, cityId: Short): (m: string)
    ensures var p := "Ocurrio un error al obtener el país con el id: ";
            && |m| == |p| + |IntToString(countryId)| + 20 + |IntToString(cityId)| + 2
            && m[|p|..|p| + |IntToString(countryId)|] == IntToString(countryId)
            && m[|m| - |IntToString(cityId)| - 2..|m| - 2] == IntToString(cityId)
            && m[|m| - 2..] == "  "
  {
    "Ocurrio un error al obtener el país con el id: " + IntToString(countryId)
      + " y el id de ciudad: " + IntToString(cityId) + "  "
  }

  /** The message of a failing name search: the name as given, untrimmed,
      then a space. */
  function NombreError(country: string): (m: string)
    ensures |m| > |country| && m[|m| - |country| - 1..|m| - 1] == country && m[|m| - 1] == ' '
  {
    "Ocurrio un error al obtener los paises por el nombre: " + country + " "
  }

  /** The message `actualizar` throws for a missing id, inside its own try
      block: the id, between a fixed opening and a fixed ending. */
  function NoExisteError(id: Short): (m: string)
    ensures var p := "El país con el id ";
            && |m| == |p| + |IntToString(id)| + 27
            && m[|p|..|p| + |IntToString(id)|] == IntToString(id)
  {
    "El país con el id " + IntToString(id) + " no existe en base de datos"
  }

  /** The message of a failing `borrar` call: it ends with the id. */
  function BorrarError(id: Short): (m: string)
    ensures |m| > |IntToString(id)| && m[|m| - |IntToString(id)|..] == IntToString(id)
  {
    "Ocurrio un error al borrar el país con el id: " + IntToString(id)
  }

  /** The failure messages that name an id name it unambiguously. */
  lemma IdMessagesInjective(id: Short, other: Short)
    requires id != other
    ensures PorIdError(id) != PorIdError(other)
    ensures BorrarError(id) != BorrarError(other)
    ensures NoExisteError(id) != NoExisteError(other)
  {
    IntToStringInjective(id, other);
    var p := "Ocurrio un error al obtener el país con el id: ";
    assert PorIdError(id)[|p|..] == IntToString(id);
    assert PorIdError(other)[|p|..] == IntToString(other);
    var q := "Ocurrio un error al borrar el país con el id: ";
    assert BorrarError(id)[|q|..] == IntToString(id);
    assert BorrarError(other)[|q|..] == IntToString(other);
    var e := " no existe en base de datos";
    var n := "El país con el id ";
    assert NoExisteError(id)[|n|..|NoExisteError(id)| - |e|] == IntToString(id);
    assert NoExisteError(other)[|n|..|NoExisteError(other)| - |e|] == IntToString(other);
  }

  // ---------------------------------------------------------------------
  // Validation

  /** A name argument passes when it is not null and not blank after trim:
      when it holds some character above U+0020. */
  predicate IsValidName(name: Option<string>)
    ensures IsValidName(name) <==>
              name.Some? && exists i :: 0 <= i < |name.value| && !IsTrimmable(name.value[i])
  {
    name.Some? && !IsBlank(name.value)
  }

  /** A request passes when it is not null and its name passes; its trimmed
      name is then not empty. */
  predicate IsValidRequest(request: Option<CountryRequest>)
    ensures IsValidRequest(request) <==>
              request.Some? && request.value.country.Some? && Trim(request.value.country.value) != []
  {
    request.Some? && IsValidName(request.value.country)
  }

  /** The name a valid request stores: its name, trimmed. */
  function RequestedName(request: Option<CountryRequest>): (name: string)
    requires IsValidRequest(request)
    ensures name != [] && name == Trim(name)
  {
    TrimIdempotent(request.value.country.value);
    Trim(request.value.country.value)
  }

  // ---------------------------------------------------------------------
  // Paging arguments

  /** The PageRequest that `obtenerPaginacion` builds from its arguments:
      page `offset / limit`, size `limit`, ascending exactly when `order` is
      "asc". None when building it throws: the division when `limit` is 0,
      or `order.equals` when `order` is null. */
  function PageRequestFor(limit: Int32, offset: Int32, order: Option<string>, sort: string): (r: Option<PageRequest>)
    ensures r.None? <==> limit == 0 || order.None?
    ensures r.Some? ==> r.value.size == limit && r.value.property == sort
    ensures r.Some? ==> Some(r.value.page) == JavaDiv(offset, limit)
    ensures r.Some? ==> (r.value.direction == Asc <==> order.value == "asc")
  {
    match JavaDiv(offset, limit)
    case None => None
    case Some(page) =>
      if order.None? then None
      else Some(PageRequest(page, limit, if order.value == "asc" then Asc else Desc, sort))
  }

  /** With a positive limit and a non-negative offset the page index is the
      offset divided by the limit, rounded down: the offset falls inside the
      requested page. */
  lemma PageIndexRoundsDown(limit: Int32, offset: Int32, order: string, sort: string)
    requires 0 < limit && 0 <= offset
    ensures PageRequestFor(limit, offset, Some(order), sort).Some?
    ensures var p := PageRequestFor(limit, offset, Some(order), sort).value.page;
            p == offset / limit && p * limit <= offset < p * limit + limit
  {
    JavaDivNonNegative(offset, limit);
    assert offset == (offset / limit) * limit + offset % limit;
  }

  /** An offset that is a multiple of the limit asks for exactly that page. */
  lemma PageIndexAligned(limit: Int32, k: Int32, offset: Int32, order: string, sort: string)
    requires 0 < limit && 0 <= k && offset == k * limit
    ensures PageRequestFor(limit, offset, Some(order), sort).Some?
    ensures PageRequestFor(limit, offset, Some(order), sort).value.page == k
  {
    JavaDivExact(k, limit, offset);
  }

  /** The direction test is case-sensitive: any other spelling of "asc",
      "ASC" included, sorts descending. */
  lemma DirectionDescUnlessAsc(limit: Int32, offset: Int32, order: string, sort: string)
    requires limit != 0 && order != "asc"
    ensures PageRequestFor(limit, offset, Some(order), sort).Some?
    ensures PageRequestFor(limit, offset, Some(order), sort).value.direction == Desc
  {
  }

  // ---------------------------------------------------------------------
  // The store as a value, and the meaning of the write operations

  /** A snapshot of what the writes read and change: the table, the next id
      the storage generates, and the clock. */
  datatype Store = Store(countries: map<Short, Country>, nextId: int, clock: nat)

  /** Rows sit under their own ids, ids are below the next generated one,
      and every stamp is older than the clock. */
  ghost predicate StoreValid(s: Store) {
    && 1 <= s.nextId <= SHORT_MAX + 1
    && forall id :: id in s.countries ==>
         s.countries[id].id == id && id < s.nextId && s.countries[id].lastUpdate < s.clock
  }

  /** The row with id `id`, if any: what a later `obtenerPorId(id)` that
      does not fail returns. */
  function Lookup(countries: map<Short, Country>, id: Short): Option<Country> {
    if id in countries then Some(countries[id]) else None
  }

  /** `guardar(countryRequest)`. */
  function GuardarSpec(s: Store, request: Option<CountryRequest>, saveFails: bool): (r: (Result<Country>, Store))
    ensures r.0.IsTranslated()
    ensures r.0.Err? ==> r.1.countries == s.countries && r.1.nextId == s.nextId
    ensures r.1.clock == if IsValidRequest(request) then s.clock + 1 else s.clock
    ensures r.0.Ok? <==> IsValidRequest(request) && !saveFails && 1 <= s.nextId <= SHORT_MAX
  {
    if !IsValidRequest(request) then (Err(Internal(GUARDAR_INVALIDO)), s)
    else
      var ticked := s.(clock := s.clock + 1);
      if saveFails || !(1 <= s.nextId <= SHORT_MAX) then (Err(Internal(GUARDAR_ERROR)), ticked)
      else
        var c := Country(s.nextId, RequestedName(request), s.clock);
        (Ok(c), ticked.(countries := s.countries[c.id := c], nextId := s.nextId + 1))
  }

  /** `actualizar(countryRequest, id)`. The InternalException for a missing
      id is thrown inside the try block, so the catch replaces it with the
      generic message like any other failure. */
  function ActualizarSpec(s: Store, request: Option<CountryRequest>, id: Option<Short>, findFails: bool, saveFails: bool): (r: (Result<Country>, Store))
    ensures r.0.IsTranslated()
    ensures r.0.Err? ==> r.1.countries == s.countries
    ensures r.1.nextId == s.nextId && r.1.countries.Keys == s.countries.Keys
    ensures r.0.Ok? <==> IsValidRequest(request) && id.Some? && id.value in s.countries && !findFails && !saveFails
  {
    if !(IsValidRequest(request) && id.Some?) then (Err(Internal(ACTUALIZAR_INVALIDO)), s)
    else if findFails || id.value !in s.countries then (Err(Internal(ACTUALIZAR_ERROR)), s)
    else
      var ticked := s.(clock := s.clock + 1);
      var c := Country(id.value, RequestedName(request), s.clock);
      if saveFails then (Err(Internal(ACTUALIZAR_ERROR)), ticked)
      else (Ok(c), ticked.(countries := s.countries[id.value := c]))
  }

  /** `actualizarPais(id, country)`: a direct write of the name column, then
      the record fetched again. Nothing translates the failures. */
  function ActualizarPaisSpec(s: Store, id: Option<Short>, country: Option<string>, updateFails: bool, findFails: bool): (r: (Result<Option<Country>>, Store))
    ensures r.1.clock == s.clock && r.1.nextId == s.nextId && r.1.countries.Keys == s.countries.Keys
    ensures r.0.IsTranslated() <==> r.0.Ok? || !(id.Some? && IsValidName(country))
    ensures r.0.Ok? ==> id.Some? && r.0.value == Lookup(r.1.countries, id.value)
  {
    if !(id.Some? && IsValidName(country)) then (Err(Internal(ACTUALIZAR_PAIS_INVALIDO)), s)
    else if updateFails then (Err(Unchecked), s)
    else
      var cs := if id.value in s.countries then s.countries[id.value := s.countries[id.value].(name := country.value)]
                else s.countries;
      var updated := s.(countries := cs);
      if findFails then (Err(Unchecked), updated)
      else (Ok(Lookup(cs, id.value)), updated)
  }

  /** `borrar(id)`. The InternalException for a missing id is rethrown as it
      is; other failures get the message naming the id. */
  function BorrarSpec(s: Store, id: Option<Short>, findFails: bool, deleteFails: bool): (r: (Result<()>, Store))
    ensures r.0.IsTranslated()
    ensures r.0.Err? ==> r.1 == s
    ensures r.0.Ok? ==> id.Some? && id.value in s.countries && r.1 == s.(countries := s.countries - {id.value})
  {
    if id.None? then (Err(Internal(ID_INVALIDO)), s)
    else if findFails then (Err(Internal(BorrarError(id.value))), s)
    else if id.value !in s.countries then (Err(Internal(BORRAR_NO_EXISTE)), s)
    else if deleteFails then (Err(Internal(BorrarError(id.value))), s)
    else (Ok(()), s.(countries := s.countries - {id.value}))
  }

  // ---------------------------------------------------------------------
  // Properties of the writes

  /** Every write rejects invalid input with its validation message before
      any repository call: the store is untouched and the outcome does not
      depend on how the repository would have behaved. */
  lemma WritesValidateFirst(s: Store, request: Option<CountryRequest>, id: Option<Short>, name: Option<string>,
                            f1: bool, f2: bool)
    ensures !IsValidRequest(request) ==> GuardarSpec(s, request, f1) == (Err(Internal(GUARDAR_INVALIDO)), s)
    ensures !(IsValidRequest(request) && id.Some?) ==>
              ActualizarSpec(s, request, id, f1, f2) == (Err(Internal(ACTUALIZAR_INVALIDO)), s)
    ensures !(id.Some? && IsValidName(name)) ==>
              ActualizarPaisSpec(s, id, name, f1, f2) == (Err(Internal(ACTUALIZAR_PAIS_INVALIDO)), s)
    ensures id.None? ==> BorrarSpec(s, id, f1, f2) == (Err(Internal(ID_INVALIDO)), s)
  {
  }

  /** A null request, a null name and a blank name are exactly what
      `guardar` rejects. */
  lemma GuardarRejects(s: Store, name: string, saveFails: bool)
    ensures GuardarSpec(s, None, saveFails).0 == Err(Internal(GUARDAR_INVALIDO))
    ensures GuardarSpec(s, Some(CountryRequest(None)), saveFails).0 == Err(Internal(GUARDAR_INVALIDO))
    ensures (GuardarSpec(s, Some(CountryRequest(Some(name))), saveFails).0 == Err(Internal(GUARDAR_INVALIDO)))
            <==> forall i :: 0 <= i < |name| ==> IsTrimmable(name[i])
  {
  }

  /** A successful `guardar` adds exactly one row, under an id that was free,
      with the trimmed name and the current clock, newer than every other
      stamp; the other rows are unchanged and a later lookup finds the row. */
  lemma GuardarAddsOne(s: Store, request: Option<CountryRequest>, saveFails: bool)
    requires StoreValid(s)
    requires GuardarSpec(s, request, saveFails).0.Ok?
    ensures var (r, s') := GuardarSpec(s, request, saveFails);
            var c := r.value;
            && IsValidRequest(request) && !saveFails
            && c.id !in s.countries
            && c.name == Trim(request.value.country.value)
            && c.lastUpdate == s.clock
            && s'.countries.Keys == s.countries.Keys + {c.id}
            && |s'.countries| == |s.countries| + 1
            && (forall k :: k in s.countries ==> s'.countries[k] == s.countries[k])
            && (forall k :: k in s.countries ==> s.countries[k].lastUpdate < c.lastUpdate)
            && Lookup(s'.countries, c.id) == Some(c)
            && StoreValid(s')
  {
    var (r, s') := GuardarSpec(s, request, saveFails);
    assert r.value.id !in s.countries;
  }

  /** A failed save leaves the rows as they were. */
  lemma GuardarFailureKeepsRows(s: Store, request: Option<CountryRequest>)
    requires IsValidRequest(request)
    ensures GuardarSpec(s, request, true) == (Err(Internal(GUARDAR_ERROR)), s.(clock := s.clock + 1))
  {
  }

  /** A successful `actualizar` rewrites exactly the row with the given id,
      with the trimmed name and a strictly newer stamp; all other rows and
      the set of ids are unchanged. */
  lemma ActualizarChangesOnlyThatRow(s: Store, request: Option<CountryRequest>, id: Option<Short>, findFails: bool, saveFails: bool)
    requires StoreValid(s)
    requires ActualizarSpec(s, request, id, findFails, saveFails).0.Ok?
    ensures var (r, s') := ActualizarSpec(s, request, id, findFails, saveFails);
            && id.Some? && id.value in s.countries
            && r.value == Country(id.value, Trim(request.value.country.value), s.clock)
            && s'.countries.Keys == s.countries.Keys
            && s'.countries[id.value] == r.value
            && s'.countries[id.value].lastUpdate > s.countries[id.value].lastUpdate
            && (forall k :: k in s.countries && k != id.value ==> s'.countries[k] == s.countries[k])
            && StoreValid(s')
  {
  }

  /** `actualizar` on a missing id fails with the generic message, not with
      the one naming the id, and leaves the store unchanged. */
  lemma ActualizarMissingId(s: Store, request: Option<CountryRequest>, id: Short, findFails: bool, saveFails: bool)
    requires IsValidRequest(request) && id !in s.countries
    ensures ActualizarSpec(s, request, Some(id), findFails, saveFails) == (Err(Internal(ACTUALIZAR_ERROR)), s)
    ensures ActualizarSpec(s, request, Some(id), findFails, saveFails).0 != Err(Internal(NoExisteError(id)))
  {
    assert NoExisteError(id)[0] != ACTUALIZAR_ERROR[0];
  }

  /** Updating twice with the same name keeps the name and moves the stamp
      forward each time. */
  lemma ActualizarTwice(s: Store, request: Option<CountryRequest>, id: Short)
    requires StoreValid(s) && IsValidRequest(request) && id in s.countries
    ensures var (r1, s1) := ActualizarSpec(s, request, Some(id), false, false);
            var (r2, s2) := ActualizarSpec(s1, request, Some(id), false, false);
            && r1.Ok? && r2.Ok?
            && r1.value.name == r2.value.name
            && s.countries[id].lastUpdate < r1.value.lastUpdate < r2.value.lastUpdate
            && s2.countries.Keys == s.countries.Keys
  {
    ActualizarChangesOnlyThatRow(s, request, Some(id), false, false);
  }

  /** Create, then update with a new name: the lookup returns the new name. */
  lemma CreateThenUpdate(s: Store, first: Option<CountryRequest>, second: Option<CountryRequest>)
    requires StoreValid(s) && IsValidRequest(first) && IsValidRequest(second) && s.nextId <= SHORT_MAX
    ensures var (r1, s1) := GuardarSpec(s, first, false);
            var (r2, s2) := ActualizarSpec(s1, second, Some(r1.value.id), false, false);
            && r1.Ok? && r2.Ok?
            && Lookup(s2.countries, r1.value.id) == Some(Country(r1.value.id, Trim(second.value.country.value), s.clock + 1))
  {
    GuardarAddsOne(s, first, false);
  }

  /** `actualizarPais` writes the name as given, untrimmed, keeps the stamp
      and the clock, returns the row fetched again (absent when the id is
      missing), and lets repository failures through untranslated. */
  lemma ActualizarPaisDirectWrite(s: Store, id: Short, name: string, updateFails: bool, findFails: bool)
    requires !IsBlank(name)
    ensures var (r, s') := ActualizarPaisSpec(s, Some(id), Some(name), updateFails, findFails);
            && (updateFails || findFails <==> r == Err(Unchecked))
            && s'.clock == s.clock && s'.nextId == s.nextId
            && s'.countries.Keys == s.countries.Keys
            && (updateFails ==> s' == s)
            && (!updateFails && id in s.countries ==>
                  s'.countries[id] == Country(s.countries[id].id, name, s.countries[id].lastUpdate))
            && (forall k :: k in s.countries && k != id ==> s'.countries[k] == s.countries[k])
            && (r.Ok? ==> r.value == Lookup(s'.countries, id))
            && (r.Ok? && id !in s.countries ==> r.value == None)
  {
  }

  /** `borrar`: a missing id fails with the message that says so and
      changes nothing; an existing id is removed, nothing else changes, and
      a later lookup finds nothing. */
  lemma BorrarRemovesOnlyThatRow(s: Store, id: Short, findFails: bool, deleteFails: bool)
    ensures var (r, s') := BorrarSpec(s, Some(id), findFails, deleteFails);
            && r.IsTranslated()
            && (r.Ok? <==> !findFails && id in s.countries && !deleteFails)
            && (!findFails && id !in s.countries ==> r == Err(Internal(BORRAR_NO_EXISTE)))
            && (r.Err? ==> s' == s)
            && (r.Ok? ==> s'.countries == s.countries - {id} && Lookup(s'.countries, id) == None)
            && s'.clock == s.clock && s'.nextId == s.nextId
  {
  }

  /** The concrete scenario: create " Mexico ", which stores "Mexico", then
      rename it to "México" directly, which the lookup then returns. */
  lemma CreateThenRenameScenario(s: Store)
    requires StoreValid(s) && s.nextId <= SHORT_MAX
    ensures var (r1, s1) := GuardarSpec(s, Some(CountryRequest(Some(" Mexico "))), false);
            var (r2, s2) := ActualizarPaisSpec(s1, Some(r1.value.id), Some("México"), false, false);
            && r1.Ok? && r1.value.name == "Mexico"
            && r2 == Ok(Some(Country(r1.value.id, "México", r1.value.lastUpdate)))
  {
    var request := Some(CountryRequest(Some(" Mexico ")));
    assert SkipLeading(" Mexico ", 0) == 1;
    assert SkipTrailing(" Mexico ", 1, 8) == 7;
    assert Trim(" Mexico ") == "Mexico";
    assert IsValidRequest(request);
    TrimKeepsTrimmed("México");
    assert IsValidName(Some("México"));
    GuardarAddsOne(s, request, false);
    var (r1, s1) := GuardarSpec(s, request, false);
    assert r1.value.id in s1.countries && s1.countries[r1.value.id] == r1.value;
  }

  /** Moving the clock on keeps the invariant. */
  lemma TickKeepsStoreValid(s: Store)
    requires StoreValid(s)
    ensures StoreValid(s.(clock := s.clock + 1))
  {
  }

  /** Writing a row under an id that is stored or the next one to generate,
      stamped with the current tick, keeps the invariant once the clock has
      moved on. */
  lemma PutKeepsStoreValid(s: Store, c: Country, nextId: int)
    requires StoreValid(s)
    requires c.id in s.countries || (c.id == s.nextId && nextId == s.nextId + 1)
    requires c.id in s.countries ==> nextId == s.nextId
    requires nextId <= SHORT_MAX + 1
    requires c.lastUpdate <= s.clock
    ensures StoreValid(Store(s.countries[c.id := c], nextId, s.clock + 1))
  {
  }

  lemma GuardarKeepsStoreValid(s: Store, request: Option<CountryRequest>, saveFails: bool)
    requires StoreValid(s)
    ensures StoreValid(GuardarSpec(s, request, saveFails).1)
  {
    if IsValidRequest(request) {
      TickKeepsStoreValid(s);
      if !saveFails && 1 <= s.nextId <= SHORT_MAX {
        PutKeepsStoreValid(s, Country(s.nextId, RequestedName(request), s.clock), s.nextId + 1);
      }
    }
  }

  lemma ActualizarKeepsStoreValid(s: Store, request: Option<CountryRequest>, id: Option<Short>, findFails: bool, saveFails: bool)
    requires StoreValid(s)
    ensures StoreValid(ActualizarSpec(s, request, id, findFails, saveFails).1)
  {
    if IsValidRequest(request) && id.Some? && !findFails && id.value in s.countries {
      TickKeepsStoreValid(s);
      PutKeepsStoreValid(s, Country(id.value, RequestedName(request), s.clock), s.nextId);
    }
  }

  lemma ActualizarPaisKeepsStoreValid(s: Store, id: Option<Short>, country: Option<string>, updateFails: bool, findFails: bool)
    requires StoreValid(s)
    ensures StoreValid(ActualizarPaisSpec(s, id, country, updateFails, findFails).1)
  {
  }

  lemma BorrarKeepsStoreValid(s: Store, id: Option<Short>, findFails: bool, deleteFails: bool)
    requires StoreValid(s)
    ensures StoreValid(BorrarSpec(s, id, findFails, deleteFails).1)
  {
  }

  // ---------------------------------------------------------------------
  // The service object

  class CountryServiceImpl {
    const countryRepository: CountryRepository
    /** Stands in for the system clock that `new Date()` reads. */
    var clock: nat

    function Snapshot(): Store
      reads this, countryRepository
    {
      Store(countryRepository.countries, countryRepository.nextId, clock)
    }

    function Countries(): map<Short, Country>
      reads this, countryRepository
    {
      countryRepository.countries
    }

    ghost predicate Valid()
      reads this, countryRepository
    {
      countryRepository.Valid() && StoreValid(Snapshot())
    }

    constructor (queries: Queries)
      ensures Valid() && fresh(countryRepository)
      ensures Countries() == map[] && countryRepository.queries == queries
    {
      countryRepository := new CountryRepository(queries);
      clock := 0;
    }

    /** `new Date()`: the current tick; the clock then moves on. */
    method Now() returns (now: nat)
      modifies this
      ensures now == old(clock) && clock == old(clock) + 1
    {
      now := clock;
      clock := clock + 1;
    }

    // ----- reads

    /** `obtenerTodos()`. */
    function ObtenerTodos(fails: bool): (r: Result<seq<Country>>)
      reads this, countryRepository
      ensures r.IsTranslated() && (r.Err? <==> fails)
      ensures r.Err? ==> r.failure.message == TODOS_ERROR
      ensures r.Ok? ==> r.value == countryRepository.queries.obtenerTodos(Countries())
    {
      match countryRepository.ObtenerTodos(fails)
      case Raised => Err(Internal(TODOS_ERROR))
      case Done(v) => Ok(v)
    }

    /** `obtenerTodosOrdenadosPorId()`. */
    function ObtenerTodosOrdenadosPorId(fails: bool): (r: Result<seq<Country>>)
      reads this, countryRepository
      ensures r.IsTranslated() && (r.Err? <==> fails)
      ensures r.Err? ==> r.failure.message == TODOS_ERROR
      ensures r.Ok? ==> r.value == countryRepository.queries.findAllByIdDescending(Countries())
    {
      match countryRepository.FindAllByIdDescending(fails)
      case Raised => Err(Internal(TODOS_ERROR))
      case Done(v) => Ok(v)
    }

    /** `obtenerPorIdYPais(id, country)`: rejects a null id, a null name or a
        blank name before the query; the query gets the name untrimmed. */
    function ObtenerPorIdYPais(id: Option<Short>, country: Option<string>, fails: bool): (r: Result<Option<Country>>)
      reads this, countryRepository
      ensures r.IsTranslated()
      ensures !(id.Some? && IsValidName(country)) ==> r == Err(Internal(ID_Y_NOMBRE_INVALIDOS))
      ensures id.Some? && IsValidName(country) ==>
                (r.Err? <==> fails) && (fails ==> r == Err(Internal(IdYNombreError(id.value, country.value))))
      ensures r.Ok? ==> (r.value.Some? <==> id.value in Countries() && Countries()[id.value].name == country.value)
      ensures r.Ok? && r.value.Some? ==> r.value.value == Countries()[id.value]
    {
      if id.Some? && country.Some? && !IsBlank(country.value) then
        match countryRepository.FindByIdAndName(id.value, country.value, fails)
        case Raised => Err(Internal(IdYNombreError(id.value, country.value)))
        case Done(v) => Ok(v)
      else
        Err(Internal(ID_Y_NOMBRE_INVALIDOS))
    }

    /** `obtenerPorId(id)`: rejects a null id before the query. */
    function ObtenerPorId(id: Option<Short>, fails: bool): (r: Result<Option<Country>>)
      reads this, countryRepository
      ensures r.IsTranslated()
      ensures id.None? ==> r == Err(Internal(ID_INVALIDO))
      ensures id.Some? ==> (r.Err? <==> fails) && (fails ==> r == Err(Internal(PorIdError(id.value))))
      ensures r.Ok? ==> r.value == Lookup(Countries(), id.value)
    {
      if id.Some? then
        match countryRepository.FindById(id.value, fails)
        case Raised => Err(Internal(PorIdError(id.value)))
        case Done(v) => Ok(v)
      else
        Err(Internal(ID_INVALIDO))
    }

    /** `obtenerPaginacion(limit, offset, order, sort, search)`: the query
        gets the search term as it is and the PageRequest built from the
        other arguments; a division by zero, a null order and a failing
        query all end in the one paging message. */
    function ObtenerPaginacion(limit: Int32, offset: Int32, order: Option<string>, sort: string, search: string, fails: bool): (r: Result<Option<Page>>)
      reads this, countryRepository
      ensures r.IsTranslated()
      ensures r.Err? <==> limit == 0 || order.None? || fails
      ensures r.Err? ==> r.failure.message == PAGINACION_ERROR
      ensures r.Ok? ==> r.value == countryRepository.queries.obtenerPaginacion(
                                     Countries(), search, PageRequestFor(limit, offset, order, sort).value)
    {
      match PageRequestFor(limit, offset, order, sort)
      case None => Err(Internal(PAGINACION_ERROR))
      case Some(pageable) =>
        match countryRepository.ObtenerPaginacion(search, pageable, fails)
        case Raised => Err(Internal(PAGINACION_ERROR))
        case Done(v) => Ok(v)
    }

    /** `obtenerSuma()`. */
    function ObtenerSuma(fails: bool): (r: Result<Option<int>>)
      reads this, countryRepository
      ensures r.IsTranslated() && (r.Err? <==> fails)
      ensures r.Err? ==> r.failure.message == SUMA_ERROR
      ensures r.Ok? ==> r.value == countryRepository.queries.obtenerSuma(Countries())
    {
      match countryRepository.ObtenerSuma(fails)
      case Raised => Err(Internal(SUMA_ERROR))
      case Done(v) => Ok(v)
    }

    /** `obtenerPaisCiudadPorIdPaisYIdCiudad(countryId, cityId)`: rejects
        either id being null before the join. */
    function ObtenerPaisCiudadPorIdPaisYIdCiudad(countryId: Option<Short>, cityId: Option<Short>, fails: bool): (r: Result<Option<CountryResponse>>)
      reads this, countryRepository
      ensures r.IsTranslated()
      ensures !(countryId.Some? && cityId.Some?) ==> r == Err(Internal(PAIS_CIUDAD_INVALIDOS))
      ensures countryId.Some? && cityId.Some? ==>
                (r.Err? <==> fails) && (fails ==> r == Err(Internal(PaisCiudadError(countryId.value, cityId.value))))
      ensures r.Ok? ==> r.value == countryRepository.queries.obtenerPaisCiudadPorIdPaisYIdCiudad(
                                     Countries(), countryId.value, cityId.value)
    {
      if countryId.Some? && cityId.Some? then
        match countryRepository.ObtenerPaisCiudadPorIdPaisYIdCiudad(countryId.value, cityId.value, fails)
        case Raised => Err(Internal(PaisCiudadError(countryId.value, cityId.value)))
        case Done(v) => Ok(v)
      else
        Err(Internal(PAIS_CIUDAD_INVALIDOS))
    }

    /** `obtenerNombrePaisPorPais(country)`: rejects null but accepts an
        empty or blank name; the query gets the trimmed name, the failure
        message the name as given. */
    function ObtenerNombrePaisPorPais(country: Option<string>, fails: bool): (r: Result<seq<string>>)
      reads this, countryRepository
      ensures r.IsTranslated()
      ensures country.None? ==> r == Err(Internal(NOMBRE_INVALIDO))
      ensures country.Some? ==> (r.Err? <==> fails) && (fails ==> r == Err(Internal(NombreError(country.value))))
      ensures r.Ok? ==> r.value == countryRepository.queries.obtenerNombrePaisPorPais(Countries(), Trim(country.value))
    {
      if country.Some? then
        match countryRepository.ObtenerNombrePaisPorPais(Trim(country.value), fails)
        case Raised => Err(Internal(NombreError(country.value)))
        case Done(v) => Ok(v)
      else
        Err(Internal(NOMBRE_INVALIDO))
    }

    // ----- writes

    /** `guardar(countryRequest)`. */
    method Guardar(request: Option<CountryRequest>, saveFails: bool) returns (r: Result<Country>)
      requires Valid()
      modifies this, countryRepository
      ensures Valid()
      ensures (r, Snapshot()) == GuardarSpec(old(Snapshot()), request, saveFails)
      ensures r.Ok? ==> ObtenerPorId(Some(r.value.id), false) == Ok(Some(r.value))
    {
      if request.Some? && request.value.country.Some? && !IsBlank(request.value.country.value) {
        var name := Trim(request.value.country.value);
        var now := Now();
        var saved := countryRepository.Save(None, name, now, saveFails);
        if saved.Raised? {
          r := Err(Internal(GUARDAR_ERROR));
        } else {
          r := Ok(saved.value);
        }
      } else {
        r := Err(Internal(GUARDAR_INVALIDO));
      }
    }

    /** `actualizar(countryRequest, id)`: find the row, rename and stamp it,
        save it. */
    method Actualizar(request: Option<CountryRequest>, id: Option<Short>, findFails: bool, saveFails: bool)
      returns (r: Result<Country>)
      requires Valid()
      modifies this, countryRepository
      ensures Valid()
      ensures (r, Snapshot()) == ActualizarSpec(old(Snapshot()), request, id, findFails, saveFails)
      ensures r.Ok? ==> ObtenerPorId(id, false) == Ok(Some(r.value))
    {
      if request.Some? && request.value.country.Some? && !IsBlank(request.value.country.value) && id.Some? {
        // What the guarded block produces, before the handler sees it.
        var attempt: Result<Country>;
        var found := countryRepository.FindById(id.value, findFails);
        if found.Raised? {
          attempt := Err(Unchecked);
        } else if found.value.Some? {
          var country := found.value.value;
          country := country.(name := Trim(request.value.country.value));
          var now := Now();
          country := country.(lastUpdate := now);
          var saved := countryRepository.Save(Some(country.id), country.name, country.lastUpdate, saveFails);
          attempt := if saved.Raised? then Err(Unchecked) else Ok(saved.value);
        } else {
          attempt := Err(Internal(NoExisteError(id.value)));
        }
        // The handler replaces every failure, the missing-id one included,
        // with the generic message.
        r := if attempt.Err? then Err(Internal(ACTUALIZAR_ERROR)) else attempt;
      } else {
        r := Err(Internal(ACTUALIZAR_INVALIDO));
      }
    }

    /** `actualizarPais(id, country)`: the direct name update, then the row
        fetched again; nothing catches a failure. */
    method ActualizarPais(id: Option<Short>, country: Option<string>, updateFails: bool, findFails: bool)
      returns (r: Result<Option<Country>>)
      requires Valid()
      modifies countryRepository
      ensures Valid()
      ensures (r, Snapshot()) == ActualizarPaisSpec(old(Snapshot()), id, country, updateFails, findFails)
    {
      if id.Some? && country.Some? && !IsBlank(country.value) {
        var raised := countryRepository.ActualizarPais(id.value, country.value, updateFails);
        if raised {
          r := Err(Unchecked);
        } else {
          var found := countryRepository.FindById(id.value, findFails);
          r := if found.Raised? then Err(Unchecked) else Ok(found.value);
        }
      } else {
        r := Err(Internal(ACTUALIZAR_PAIS_INVALIDO));
      }
    }

    /** `borrar(id)`: find the row, delete it. */
    method Borrar(id: Option<Short>, findFails: bool, deleteFails: bool) returns (r: Result<()>)
      requires Valid()
      modifies countryRepository
      ensures Valid()
      ensures (r, Snapshot()) == BorrarSpec(old(Snapshot()), id, findFails, deleteFails)
      ensures r.Ok? ==> ObtenerPorId(id, false) == Ok(None)
    {
      if id.Some? {
        var found := countryRepository.FindById(id.value, findFails);
        if found.Raised? {
          r := Err(Internal(BorrarError(id.value)));
        } else if found.value.Some? {
          var raised := countryRepository.Delete(found.value.value, deleteFails);
          r := if raised then Err(Internal(BorrarError(id.value))) else Ok(());
        } else {
          // The missing-id exception is rethrown unchanged.
          r := Err(Internal(BORRAR_NO_EXISTE));
        }
      } else {
        r := Err(Internal(ID_INVALIDO));
      }
    }
  }
}
