# Country service and REST controller, modelled in Dafny

This project models the core of a small Spring Boot CRUD application over a
`country` table. It covers two layers:

- **`CountryServiceImpl`.** Every operation validates its nullable
  arguments, calls the repository, and turns any repository failure into
  one `InternalException` with its own Spanish message. The one exception
  is `actualizarPais`, which translates nothing.
- **`CountryRest`.** Every handler puts `estado` and `datos` into a map.
  The value is `"exito"` plus the service result, or `"error"` plus the
  exception message. The paging handler instead answers with HTTP 200 and
  `{total, rows}`, or 500 and an empty map. `guardar` and `actualizar`
  report binding errors as one line per field error.

Modules, one per file:

- `JavaLang` (`java_lang.dfy`) holds the pieces of `java.lang` the code
  relies on:
  - `String.trim` (strips characters up to U+0020 at both ends);
  - `replace("null", "nulo")`;
  - decimal text of integers (`%d` and string concatenation), with its
    parse-back;
  - Java's 32-bit `/`: it truncates toward zero, throws on zero, and wraps
    `MIN / -1`.
- `Domain` (`domain.dfy`) holds the values:
  - the row `Country(id, name, lastUpdate)`;
  - the request body, whose name may be null;
  - the join projection;
  - `PageRequest` and `Page`;
  - the outcome `Result` = a return value or a `Failure`. A `Failure` is
    an `InternalException` with its message, or an untranslated exception.
- `Repository` (`repository.dfy`) is the in-memory stand-in for
  `ICountryRepository`:
  - a class holding the table as `map<Short, Country>` and the next
    generated id;
  - `save`, `delete` and the direct name update are methods with
    `modifies`, and so change the table in place;
  - every call takes a `fails` flag that decides whether it raises;
  - queries defined in JPQL/SQL are functions of the table in a `Queries`
    value, and are not interpreted further.
- `Service` (`service.dfy`) is `CountryServiceImpl`:
  - a class holding the repository and a clock counter that stands in for
    `new Date()`;
  - reads are functions;
  - each write is a method proved equal to a specification function
    (`GuardarSpec`, `ActualizarSpec`, `ActualizarPaisSpec`, `BorrarSpec`)
    over a `Store` snapshot. The snapshot is the table, the next id and
    the clock;
  - the write properties are lemmas about those functions.
- `Rest` (`rest.dfy`) is `CountryRest`:
  - every handler is a method building its map with `put`s, in the order
    the source does;
  - the field-error lists are built by a `for` loop (`guardar`) and by a
    walk over the remaining list (the `forEach` of `actualizar`).

Paths below are relative to the repository root.

Behaviour of the code that is easy to misread:

- **Update of a missing id.** `actualizar` reports the generic
  "Ocurrio un error al actualizar el país". The id-specific message thrown
  at line 158 is caught by the `catch (Exception)` at line 160.
  `Service.ActualizarMissingId` proves this.
- **The direct rename.** `actualizarPais` passes the name untrimmed, and
  the service does not stamp `lastUpdate`. In this model the update query
  writes only the name, so the rename scenario keeps the creation stamp
  instead of getting a newer one, and a stored name can keep surrounding
  whitespace. `Service.CreateThenRenameScenario` and
  `Service.ActualizarPaisDirectWrite` prove this of the model.
- **Page index.** `offset / limit` is Java's truncating division. For a
  non-negative offset and a positive limit it rounds down
  (`Service.PageIndexRoundsDown`). A negative offset rounds toward zero
  (`JavaLang.JavaDivTowardZero`).
- **The search term.** It reaches the paging query as given, untrimmed.
  Only `obtenerNombrePaisPorPais` trims its term.

## Model

| member | source | states |
|---|---|---|
| JavaLang.Trim | src/main/java/mx/gob/queretaro/service/impl/CountryServiceImpl.java:132 | the trimmed name is no longer than the input and neither starts nor ends with a character up to U+0020 |
| JavaLang.IsBlank | src/main/java/mx/gob/queretaro/service/impl/CountryServiceImpl.java:128-129 | `trim().isEmpty()` holds exactly when every character of the string is at most U+0020 |
| JavaLang.TrimKeepsTrimmed | src/main/java/mx/gob/queretaro/service/impl/CountryServiceImpl.java:132 | a string without trimmable ends is kept as it is |
| JavaLang.TrimIdempotent | src/main/java/mx/gob/queretaro/service/impl/CountryServiceImpl.java:153 | trimming an already trimmed name changes nothing |
| JavaLang.TrimIsMiddle | src/main/java/mx/gob/queretaro/service/impl/CountryServiceImpl.java:132 | the input is a trimmable prefix, then the trimmed name, then a trimmable suffix |
| JavaLang.ReplaceNull | src/main/java/mx/gob/queretaro/rest/CountryRest.java:174 | `replace("null", "nulo")` keeps the length of the text |
| JavaLang.ReplaceNullPointwise | src/main/java/mx/gob/queretaro/rest/CountryRest.java:174 | each character survives the rewrite, except the last letter of an occurrence of "null", which becomes 'o' |
| JavaLang.NoNullAtHead | src/main/java/mx/gob/queretaro/rest/CountryRest.java:174 | a text not starting with "null" does not start with it after the rewrite |
| JavaLang.ReplaceNullRemovesAll | src/main/java/mx/gob/queretaro/rest/CountryRest.java:174 | after `replace("null", "nulo")` no occurrence of "null" is left |
| JavaLang.ReplaceNullKeepsClean | src/main/java/mx/gob/queretaro/rest/CountryRest.java:174 | a text without "null" is left as it is |
| JavaLang.NatToString | src/main/java/mx/gob/queretaro/service/impl/CountryServiceImpl.java:70 | the decimal text of a number is non-empty and all digits |
| JavaLang.IntToString | src/main/java/mx/gob/queretaro/rest/CountryRest.java:248 | the text of an id starts with '-' exactly when the id is negative |
| JavaLang.DigitsValueOfNatToString | src/main/java/mx/gob/queretaro/service/impl/CountryServiceImpl.java:70 | reading the decimal text back gives the number |
| JavaLang.IntToStringInjective | src/main/java/mx/gob/queretaro/service/impl/CountryServiceImpl.java:195 | different ids give different texts in the messages that name them |
| JavaLang.JavaDiv | src/main/java/mx/gob/queretaro/service/impl/CountryServiceImpl.java:81 | `offset / limit` throws exactly when `limit` is 0 |
| JavaLang.JavaDivNonNegative | src/main/java/mx/gob/queretaro/service/impl/CountryServiceImpl.java:81 | for a non-negative offset and a positive limit it is the quotient rounded down |
| JavaLang.JavaDivExact | src/main/java/mx/gob/queretaro/service/impl/CountryServiceImpl.java:81 | an exact multiple `k * b` divided by `b` is `k` |
| JavaLang.JavaDivTowardZero | src/main/java/mx/gob/queretaro/service/impl/CountryServiceImpl.java:81 | a negative offset divided by a positive limit rounds toward zero |
| JavaLang.JavaDivOverflow | src/main/java/mx/gob/queretaro/service/impl/CountryServiceImpl.java:81 | `MIN_VALUE / -1` wraps to `MIN_VALUE` |
| Domain.Result.MapValue | src/main/java/mx/gob/queretaro/rest/CountryRest.java:49 | converting a return value keeps whether the call returned, and keeps its failure |
| Repository.CountryRepository.FindById | src/main/java/mx/gob/queretaro/service/impl/CountryServiceImpl.java:150 | the lookup raises exactly when it fails; otherwise it finds the row exactly when the id is stored |
| Repository.CountryRepository.FindByIdAndName | src/main/java/mx/gob/queretaro/service/impl/CountryServiceImpl.java:53 | the derived query raises exactly when it fails; otherwise it finds the row with that id exactly when, in this model, its name equals the argument exactly |
| Repository.CountryRepository.ObtenerTodos | src/main/java/mx/gob/queretaro/service/impl/CountryServiceImpl.java:32 | the listing raises exactly when it fails; otherwise it is the query's rows for the table |
| Repository.CountryRepository.FindAllByIdDescending | src/main/java/mx/gob/queretaro/service/impl/CountryServiceImpl.java:42 | the sorted listing raises exactly when it fails; otherwise it is the query's rows for the table |
| Repository.CountryRepository.ObtenerPaginacion | src/main/java/mx/gob/queretaro/service/impl/CountryServiceImpl.java:81 | the paging query raises exactly when it fails; otherwise it is the query's page for the table, the search term and the page request |
| Repository.CountryRepository.ObtenerSuma | src/main/java/mx/gob/queretaro/service/impl/CountryServiceImpl.java:91 | the sum query raises exactly when it fails; otherwise it is the query's sum for the table |
| Repository.CountryRepository.ObtenerPaisCiudadPorIdPaisYIdCiudad | src/main/java/mx/gob/queretaro/service/impl/CountryServiceImpl.java:102 | the join raises exactly when it fails; otherwise it is the query's answer for the table and both ids |
| Repository.CountryRepository.ObtenerNombrePaisPorPais | src/main/java/mx/gob/queretaro/service/impl/CountryServiceImpl.java:116 | the name search raises exactly when it fails; otherwise it is the query's names for the table and the term |
| Repository.CountryRepository.Save | src/main/java/mx/gob/queretaro/service/impl/CountryServiceImpl.java:135 | saving overwrites a stored id, or inserts under the next generated id; a failure, or running out of `Short` ids, changes nothing |
| Repository.CountryRepository.Delete | src/main/java/mx/gob/queretaro/service/impl/CountryServiceImpl.java:187 | only the row with the country's id goes, unless the call raises |
| Repository.CountryRepository.ActualizarPais | src/main/java/mx/gob/queretaro/service/impl/CountryServiceImpl.java:172 | in this model the direct update rewrites only the name of an existing row; a missing id, or a raise, changes nothing |
| Service.IdYNombreError | src/main/java/mx/gob/queretaro/service/impl/CountryServiceImpl.java:56 | the message holds the decimal id right after its fixed opening and ends with the name as given |
| Service.PorIdError | src/main/java/mx/gob/queretaro/service/impl/CountryServiceImpl.java:70 | the message ends with the decimal id |
| Service.PaisCiudadError | src/main/java/mx/gob/queretaro/service/impl/CountryServiceImpl.java:105 | the message holds the country id after its fixed opening, then the city id, then two spaces |
| Service.NombreError | src/main/java/mx/gob/queretaro/service/impl/CountryServiceImpl.java:119 | the message ends with the name as given, untrimmed, then a space |
| Service.NoExisteError | src/main/java/mx/gob/queretaro/service/impl/CountryServiceImpl.java:158 | the message holds the decimal id between "El país con el id " and a fixed 27-character ending |
| Service.BorrarError | src/main/java/mx/gob/queretaro/service/impl/CountryServiceImpl.java:195 | the message ends with the decimal id |
| Service.IdMessagesInjective | src/main/java/mx/gob/queretaro/service/impl/CountryServiceImpl.java:70 | the message of `obtenerPorId` here, that of `actualizar` for a missing id (line 158) and that of `borrar` (line 195) each differ for different ids |
| Service.IsValidName | src/main/java/mx/gob/queretaro/service/impl/CountryServiceImpl.java:171 | a name passes exactly when it is not null and holds some character above U+0020 |
| Service.IsValidRequest | src/main/java/mx/gob/queretaro/service/impl/CountryServiceImpl.java:128-129 | a request passes exactly when it and its name are not null and the trimmed name is not empty |
| Service.RequestedName | src/main/java/mx/gob/queretaro/service/impl/CountryServiceImpl.java:132 | the name a valid request stores is non-empty and already trimmed |
| Service.PageRequestFor | src/main/java/mx/gob/queretaro/service/impl/CountryServiceImpl.java:81 | the PageRequest exists unless `limit` is 0 or `order` is null; page = `offset / limit`, size = `limit`, the given sort column; ascending exactly when `order` equals "asc" |
| Service.PageIndexRoundsDown | src/main/java/mx/gob/queretaro/service/impl/CountryServiceImpl.java:81 | with a positive limit and a non-negative offset, the offset lies inside the requested page |
| Service.PageIndexAligned | src/main/java/mx/gob/queretaro/service/impl/CountryServiceImpl.java:81 | an offset of `k * limit` requests page `k` |
| Service.DirectionDescUnlessAsc | src/main/java/mx/gob/queretaro/service/impl/CountryServiceImpl.java:81 | the direction test is case-sensitive: anything but "asc" sorts descending |
| Service.GuardarSpec | src/main/java/mx/gob/queretaro/service/impl/CountryServiceImpl.java:127-143 | every failure is an InternalException; a failure keeps the rows and the next id; the clock ticks exactly when the request is valid; success exactly when the request is valid, the save does not fail and a `Short` id is left |
| Service.ActualizarSpec | src/main/java/mx/gob/queretaro/service/impl/CountryServiceImpl.java:146-167 | every failure is an InternalException and keeps the rows; the next id and the set of ids never change; success exactly when the request is valid, the id is given and stored, and neither the find nor the save fails |
| Service.ActualizarPaisSpec | src/main/java/mx/gob/queretaro/service/impl/CountryServiceImpl.java:170-178 | the clock, the next id and the set of ids never change; the outcome is an InternalException or a return exactly when it returns or the input is invalid, so repository failures escape untranslated; a return is the row now stored under the id |
| Service.BorrarSpec | src/main/java/mx/gob/queretaro/service/impl/CountryServiceImpl.java:181-200 | every failure is an InternalException and leaves the store as it was; success means the id was given and stored, and only that row is gone |
| Service.WritesValidateFirst | src/main/java/mx/gob/queretaro/service/impl/CountryServiceImpl.java:127-200 | each write rejects bad input with its own message, before any repository call and whatever the repository would do, and leaves the store as it was |
| Service.GuardarRejects | src/main/java/mx/gob/queretaro/service/impl/CountryServiceImpl.java:127-141 | `guardar` rejects a null request, a null name, and exactly those names made only of trimmable characters |
| Service.GuardarAddsOne | src/main/java/mx/gob/queretaro/service/impl/CountryServiceImpl.java:131-135 | a successful `guardar` adds exactly one row under a fresh id, with the trimmed name and the current clock, newer than every other row; other rows are unchanged and a lookup finds the new one |
| Service.GuardarFailureKeepsRows | src/main/java/mx/gob/queretaro/service/impl/CountryServiceImpl.java:135-138 | a failing save reports "Ocurrio un error al guardar el país" and leaves the rows as they were |
| Service.ActualizarChangesOnlyThatRow | src/main/java/mx/gob/queretaro/service/impl/CountryServiceImpl.java:150-156 | a successful `actualizar` rewrites only the row with that id, with the trimmed name and a strictly newer stamp; the set of ids is unchanged |
| Service.ActualizarMissingId | src/main/java/mx/gob/queretaro/service/impl/CountryServiceImpl.java:150-162 | `actualizar` on a missing id leaves the store unchanged and reports the generic message, not the one naming the id |
| Service.ActualizarTwice | src/main/java/mx/gob/queretaro/service/impl/CountryServiceImpl.java:150-156 | updating twice with the same name keeps the name and moves the stamp forward each time |
| Service.CreateThenUpdate | src/main/java/mx/gob/queretaro/service/impl/CountryServiceImpl.java:131-156 | create, then update with a new name: the lookup returns the new trimmed name |
| Service.ActualizarPaisDirectWrite | src/main/java/mx/gob/queretaro/service/impl/CountryServiceImpl.java:170-178 | `actualizarPais` writes the name untrimmed, sets no stamp (the model's update query writes the name only), leaves the clock alone, returns the re-fetched row (absent for a missing id), and leaves repository failures untranslated |
| Service.BorrarRemovesOnlyThatRow | src/main/java/mx/gob/queretaro/service/impl/CountryServiceImpl.java:181-199 | `borrar` succeeds exactly when the id is stored and nothing fails; it then removes only that row, after which a lookup finds nothing. A missing id reports "El id del país no existe en base de datos"; every failure leaves the store as it was |
| Service.CreateThenRenameScenario | src/main/java/mx/gob/queretaro/service/impl/CountryServiceImpl.java:131-174 | creating " Mexico " stores "Mexico"; renaming it to "México" then returns "México" with the creation stamp, which the model's update query leaves alone |
| Service.GuardarKeepsStoreValid | src/main/java/mx/gob/queretaro/service/impl/CountryServiceImpl.java:131-135 | `guardar` keeps rows under their own ids, below the next id, and older than the clock |
| Service.ActualizarKeepsStoreValid | src/main/java/mx/gob/queretaro/service/impl/CountryServiceImpl.java:150-156 | `actualizar` keeps the store invariant |
| Service.ActualizarPaisKeepsStoreValid | src/main/java/mx/gob/queretaro/service/impl/CountryServiceImpl.java:170-174 | `actualizarPais` keeps the store invariant |
| Service.BorrarKeepsStoreValid | src/main/java/mx/gob/queretaro/service/impl/CountryServiceImpl.java:184-187 | `borrar` keeps the store invariant |
| Service.CountryServiceImpl.Now | src/main/java/mx/gob/queretaro/service/impl/CountryServiceImpl.java:133 | each `new Date()` reads the clock, which then moves on |
| Service.CountryServiceImpl.ObtenerTodos | src/main/java/mx/gob/queretaro/service/impl/CountryServiceImpl.java:30-37 | returns the query's rows; fails exactly when the query fails, with "Ocurrio un error al obtener los paises" |
| Service.CountryServiceImpl.ObtenerTodosOrdenadosPorId | src/main/java/mx/gob/queretaro/service/impl/CountryServiceImpl.java:40-47 | the sorted listing, with the same failure rule and message |
| Service.CountryServiceImpl.ObtenerPorIdYPais | src/main/java/mx/gob/queretaro/service/impl/CountryServiceImpl.java:50-61 | rejects a null id, a null name or a blank name first; otherwise fails only when the query does, with a message naming the id and the name. In this model it finds the row exactly when its name equals the untrimmed argument |
| Service.CountryServiceImpl.ObtenerPorId | src/main/java/mx/gob/queretaro/service/impl/CountryServiceImpl.java:64-75 | rejects a null id first; otherwise it is the row with that id, if any, or the message naming the id |
| Service.CountryServiceImpl.ObtenerPaginacion | src/main/java/mx/gob/queretaro/service/impl/CountryServiceImpl.java:78-86 | for a non-negative limit, an offset above `-limit` and a non-blank sort, fails with the paging message exactly when `limit` is 0, `order` is null or the query fails; otherwise it is the page the query gives for the raw search term and `PageRequestFor` |
| Service.CountryServiceImpl.ObtenerSuma | src/main/java/mx/gob/queretaro/service/impl/CountryServiceImpl.java:89-96 | the sum the query gives; fails exactly when the query fails, with the sum message |
| Service.CountryServiceImpl.ObtenerPaisCiudadPorIdPaisYIdCiudad | src/main/java/mx/gob/queretaro/service/impl/CountryServiceImpl.java:99-110 | rejects either id being null first; otherwise the join's answer, or the message naming both ids |
| Service.CountryServiceImpl.ObtenerNombrePaisPorPais | src/main/java/mx/gob/queretaro/service/impl/CountryServiceImpl.java:113-124 | rejects only null, so an empty or blank name passes; the query gets the trimmed name, and the failure message the name as given |
| Service.CountryServiceImpl.Guardar | src/main/java/mx/gob/queretaro/service/impl/CountryServiceImpl.java:127-143 | result and new store are those of `GuardarSpec`; a saved row is then found by its id |
| Service.CountryServiceImpl.Actualizar | src/main/java/mx/gob/queretaro/service/impl/CountryServiceImpl.java:146-167 | result and new store are those of `ActualizarSpec`; the updated row is then found by its id |
| Service.CountryServiceImpl.ActualizarPais | src/main/java/mx/gob/queretaro/service/impl/CountryServiceImpl.java:170-178 | result and new store are those of `ActualizarPaisSpec` |
| Service.CountryServiceImpl.Borrar | src/main/java/mx/gob/queretaro/service/impl/CountryServiceImpl.java:181-200 | result and new store are those of `BorrarSpec`; after success a lookup of the id finds nothing |
| Rest.StatusEnvelope | src/main/java/mx/gob/queretaro/rest/CountryRest.java:45-55 | the map has exactly the keys `estado` and `datos`: "exito" and the value when the call returned, "error" and the exception's message when it threw |
| Rest.StatusEnvelopeInjective | src/main/java/mx/gob/queretaro/rest/CountryRest.java:45-55 | the envelope loses nothing: different outcomes give different maps |
| Rest.BindingResult.HasErrors | src/main/java/mx/gob/queretaro/rest/CountryRest.java:166 | `hasErrors()` holds exactly when there is a field error or a global error |
| Rest.FieldErrorMessage | src/main/java/mx/gob/queretaro/rest/CountryRest.java:173-174 | a field-error line is the trimmed field, a space, as many characters as the trimmed message has, and a full stop |
| Rest.FieldErrorMessages | src/main/java/mx/gob/queretaro/rest/CountryRest.java:204-206 | one line per field error, in order, each the line for that error |
| Rest.FieldErrorMessageShape | src/main/java/mx/gob/queretaro/rest/CountryRest.java:173-174 | between the field and the full stop a field-error line holds no "null"; a message without "null" appears unchanged |
| Rest.CollectFieldErrors | src/main/java/mx/gob/queretaro/rest/CountryRest.java:170-177 | the loop yields one line per field error, in order |
| Rest.CollectFieldErrorsForEach | src/main/java/mx/gob/queretaro/rest/CountryRest.java:202-207 | the `forEach` yields the same list as the loop of `guardar` |
| Rest.BindingErrorEnvelope | src/main/java/mx/gob/queretaro/rest/CountryRest.java:179-180 | binding errors give `estado` "error" and the list of field-error lines as `datos` |
| Rest.BorradoMensaje | src/main/java/mx/gob/queretaro/rest/CountryRest.java:248 | the deletion report ends with the decimal id |
| Rest.BorradoMensajeNamesId | src/main/java/mx/gob/queretaro/rest/CountryRest.java:248 | the deletion report for one id differs from that for any other |
| Rest.CountryRest.constructor | src/main/java/mx/gob/queretaro/rest/CountryRest.java:39-41 | the controller starts over a valid service, and is valid |
| Rest.CountryRest.ObtenerTodos | src/main/java/mx/gob/queretaro/rest/CountryRest.java:43-56 | the envelope of `obtenerTodosOrdenadosPorId`; "exito" exactly when the query does not fail |
| Rest.CountryRest.ObtenerPorIdYPais | src/main/java/mx/gob/queretaro/rest/CountryRest.java:59-72 | the envelope of `obtenerPorIdYPais`; a blank name gives the validation message; "exito" exactly when the name is not blank and the query does not fail |
| Rest.CountryRest.ObtenerPorId | src/main/java/mx/gob/queretaro/rest/CountryRest.java:74-87 | the envelope of `obtenerPorId`; without a failure `datos` is the stored row or null |
| Rest.CountryRest.ObtenerPaginacion | src/main/java/mx/gob/queretaro/rest/CountryRest.java:89-110 | 200 with `total` and `rows` when the service returns (0 and no rows for a null page); 500 with an empty map when it throws, which, for a non-negative limit, an offset above `-limit` and a non-blank sort, happens exactly when `limit` is 0 or the query fails |
| Rest.CountryRest.ObtenerSuma | src/main/java/mx/gob/queretaro/rest/CountryRest.java:112-125 | the envelope of `obtenerSuma` |
| Rest.CountryRest.ObtenerPaisCiudadPorIdPaisYIdCiudad | src/main/java/mx/gob/queretaro/rest/CountryRest.java:127-142 | the envelope of the join; a failure reports the message naming both ids |
| Rest.CountryRest.ObtenerNombrePaisPorPais | src/main/java/mx/gob/queretaro/rest/CountryRest.java:145-159 | the envelope of the name search |
| Rest.CountryRest.Guardar | src/main/java/mx/gob/queretaro/rest/CountryRest.java:161-188 | binding errors give the field-error envelope and leave the store alone; otherwise the new store is that of `GuardarSpec` and the map is the envelope of its outcome |
| Rest.CountryRest.Actualizar | src/main/java/mx/gob/queretaro/rest/CountryRest.java:190-218 | the same for `actualizar`, with `ActualizarSpec` |
| Rest.CountryRest.ActualizarPais | src/main/java/mx/gob/queretaro/rest/CountryRest.java:220-236 | the envelope of the rename; when a repository failure escapes, the handler produces no map |
| Rest.CountryRest.Borrar | src/main/java/mx/gob/queretaro/rest/CountryRest.java:238-255 | "exito" and "Se borro con exito el id: " + id exactly when the id was stored and nothing failed; otherwise the exception's message. The new store is that of `BorrarSpec` |

## Left out

- Spring wiring and routing are framework behaviour and not modelled: the annotations, `@Autowired` injection, and how `@Valid` fills a `BindingResult`. The binding result is an input of the handlers. Path variables and required request parameters reach the handlers as present values.
- `actualizar` declares its `BindingResult` after the path variable, not straight after the request body. How Spring resolves that is framework behaviour; the model treats the binding result as given.
- `@Transactional` and rollback are not modelled. Each repository call's effect stays even when a later call in the same operation fails. For example, the rename in `actualizarPais` stays when the re-fetch fails.
- JPA dirty checking is not modelled: changing a managed entity is only written back through `save`.
- The repository source is not part of this model. Its queries are functions given with the repository and not interpreted further: the JPQL search paging, the sum, the Country–City join, the name search, the two sorted listings, and the direct name update behind `actualizarPais` (see the `Repository.CountryRepository.ActualizarPais` line below).
- `PageRequest.of` argument checks (negative page, size below one), the `Sort.Order` check that the `sort` column name is not blank, and resolution of that name are Spring Data behaviour and not modelled.
- Logging (`log.error`) is left out. `java.util.Date` is replaced by a natural-number clock that ticks on every `new Date()`.
- JSON serialisation of the maps is not modelled. `datos` holds a `Datum` value.
- Concurrency and isolation between the find and the save of `actualizar` are not modelled; every operation runs alone.
- A null `getField()` or `getDefaultMessage()` would throw a `NullPointerException` in the field-error formatting. The model takes both as strings.
- Repository.CountryRepository.Save: the generated id is modelled as a counter that raises once `Short` ids run out. The storage's real identity generation is not visible.
- Service.CountryServiceImpl.ObtenerPaginacion: Java evaluates `offset / limit` before `order.equals`. Both throw into the same catch, so the model does not distinguish the two causes. The model leaves out the checks of `PageRequest.of` and `Sort.Order`. In the program a negative limit (size below one), an offset of `-limit` or less (page `offset / limit` below zero) or a blank `sort` throws into the same catch and gives the paging message and a 500 answer; the model instead returns the query's page. So the "exactly when" of the paging rows holds only for a non-negative limit, an offset above `-limit` and a non-blank sort.
- Repository.CountryRepository.ActualizarPais: the update query behind `actualizarPais(id, country)` (CountryServiceImpl.java line 172) is not visible. The model takes it to write only the name column, to stamp nothing, and to be a silent no-op for a missing id. Whether `last_update` moves depends on the query text and on how the table defines that column (an on-update default would move it).
- Repository.CountryRepository.FindByIdAndName: two readings of repository code that is not visible. Whether the derived query's name equality ignores case or trailing spaces depends on the database collation; the model takes exact string equality. The custom `obtenerPorId(id)` query at CountryServiceImpl.java line 67 is taken to be the primary-key lookup `FindById`.
