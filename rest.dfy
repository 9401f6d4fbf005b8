/** CountryRest: the HTTP handlers over the country service. Every handler
    but the paging one returns a map with the keys "estado" and "datos":
    "exito" and the service's return value when the call returns, "error"
    and the exception's message when it throws an InternalException. The
    paging handler returns `{total, rows}` with status 200, or an empty map
    with status 500. `guardar` and `actualizar` answer binding errors with a
    list of one message per field error, without calling the service. */
module Rest {
  import opened JavaLang
  import opened Domain
  import opened Service

  /** A value the handlers put into their maps, as JSON would show it. */
  datatype Datum =
    | Null
    | Text(text: string)
    | Texts(items: seq<string>)
    | CountryItem(country: Country)
    | CountryItems(countries: seq<Country>)
    | Joined(response: CountryResponse)
    | Number(number: int)

  function OfCountry(c: Option<Country>): Datum {
    if c.Some? then CountryItem(c.value) else Null
  }

  function OfResponse(r: Option<CountryResponse>): Datum {
    if r.Some? then Joined(r.value) else Null
  }

  function OfLong(n: Option<int>): Datum {
    if n.Some? then Number(n.value) else Null
  }

  const ESTADO := "estado"
  const DATOS := "datos"
  const EXITO := "exito"
  const ERROR := "error"
  const TOTAL := "total"
  const ROWS := "rows"

  const HTTP_OK := 200
  const HTTP_INTERNAL_SERVER_ERROR := 500

  // ---------------------------------------------------------------------
  // The status envelope

  /** What a handler returns once its service call has ended with
      `outcome`, an InternalException being the only way it may throw. */
  function StatusEnvelope(outcome: Result<Datum>): (m: map<string, Datum>)
    requires outcome.IsTranslated()
    ensures m.Keys == {ESTADO, DATOS}
    ensures m[ESTADO] == Text(EXITO) <==> outcome.Ok?
    ensures m[ESTADO] == Text(ERROR) <==> outcome.Err?
    ensures outcome.Ok? ==> m[DATOS] == outcome.value
    ensures outcome.Err? ==> m[DATOS] == Text(outcome.failure.message)
  {
    if outcome.Ok? then map[ESTADO := Text(EXITO), DATOS := outcome.value]
    else map[ESTADO := Text(ERROR), DATOS := Text(outcome.failure.message)]
  }

  /** The envelope loses nothing: different outcomes give different maps. */
  lemma StatusEnvelopeInjective(a: Result<Datum>, b: Result<Datum>)
    requires a.IsTranslated() && b.IsTranslated()
    requires StatusEnvelope(a) == StatusEnvelope(b)
    ensures a == b
  {
    assert StatusEnvelope(a)[ESTADO] == StatusEnvelope(b)[ESTADO];
    assert StatusEnvelope(a)[DATOS] == StatusEnvelope(b)[DATOS];
  }

  // ---------------------------------------------------------------------
  // Field errors

  /** A `FieldError` of the binding result: the field's name and its
      default message. */
  datatype FieldError = FieldError(field: string, defaultMessage: string)

  /** The binding result of a request body: its field errors in order, and
      how many errors are not tied to a field. */
  datatype BindingResult = BindingResult(fieldErrors: seq<FieldError>, globalErrorCount: nat) {
    /** Some error, field-bound or global, was recorded; field errors alone
        are what the handlers report. */
    predicate HasErrors()
      ensures HasErrors() <==> |fieldErrors| + globalErrorCount > 0
    {
      fieldErrors != [] || globalErrorCount > 0
    }
  }

  /** The line a handler reports for one field error: the trimmed field, a
      space, as many characters as the trimmed message has, and a full stop. */
  function FieldErrorMessage(e: FieldError): (line: string)
    ensures |line| == |Trim(e.field)| + |Trim(e.defaultMessage)| + 2
    ensures line[..|Trim(e.field)|] == Trim(e.field) && line[|Trim(e.field)|] == ' ' && line[|line| - 1] == '.'
  {
    Trim(e.field) + " " + ReplaceNull(Trim(e.defaultMessage)) + "."
  }

  /** The lines for a list of field errors, one per error, in order. */
  function FieldErrorMessages(errors: seq<FieldError>): (lines: seq<string>)
    ensures |lines| == |errors|
    ensures forall k :: 0 <= k < |errors| ==> lines[k] == FieldErrorMessage(errors[k])
  {
    seq(|errors|, i requires 0 <= i < |errors| => FieldErrorMessage(errors[i]))
  }

  /** Between the field and the full stop, a field-error line holds no
      "null", and a message without "null" appears as it is. */
  lemma FieldErrorMessageShape(e: FieldError)
    ensures var line := FieldErrorMessage(e);
            var f := Trim(e.field);
            var m := Trim(e.defaultMessage);
            && !ContainsNull(line[|f| + 1..|line| - 1])
            && (!ContainsNull(m) ==> line == f + " " + m + ".")
  {
    var f := Trim(e.field);
    var m := Trim(e.defaultMessage);
    var line := FieldErrorMessage(e);
    assert line[|f| + 1..|line| - 1] == ReplaceNull(m);
    ReplaceNullRemovesAll(m);
    if !ContainsNull(m) {
      ReplaceNullKeepsClean(m);
    }
  }

  /** The explicit loop of `guardar`. */
  method CollectFieldErrors(errors: seq<FieldError>) returns (mensaje: seq<string>)
    ensures mensaje == FieldErrorMessages(errors)
  {
    mensaje := [];
    for i := 0 to |errors|
      invariant |mensaje| == i
      invariant forall k :: 0 <= k < i ==> mensaje[k] == FieldErrorMessage(errors[k])
    {
      var error := errors[i];
      var campo := Trim(error.field) + " " + ReplaceNull(Trim(error.defaultMessage)) + ".";
      mensaje := mensaje + [campo];
    }
  }

  /** The `forEach` of `actualizar`, which walks the list by what is left of
      it; it reports the same lines as the loop of `guardar`. */
  method CollectFieldErrorsForEach(errors: seq<FieldError>) returns (mensaje: seq<string>)
    ensures mensaje == FieldErrorMessages(errors)
  {
    mensaje := [];
    var rest := errors;
    while rest != []
      invariant |mensaje| + |rest| == |errors| && rest == errors[|mensaje|..]
      invariant forall k :: 0 <= k < |mensaje| ==> mensaje[k] == FieldErrorMessage(errors[k])
      decreases |rest|
    {
      var error := rest[0];
      mensaje := mensaje + [Trim(error.field) + " " + ReplaceNull(Trim(error.defaultMessage)) + "."];
      rest := rest[1..];
    }
  }

  /** What a handler returns when the request body did not bind. */
  function BindingErrorEnvelope(errores: BindingResult): (m: map<string, Datum>)
    ensures m.Keys == {ESTADO, DATOS} && m[ESTADO] == Text(ERROR)
    ensures m[DATOS] == Texts(FieldErrorMessages(errores.fieldErrors))
  {
    map[ESTADO := Text(ERROR), DATOS := Texts(FieldErrorMessages(errores.fieldErrors))]
  }

  // ---------------------------------------------------------------------
  // The paging envelope

  /** A `ResponseEntity`: an HTTP status and a body. */
  datatype ResponseEntity = ResponseEntity(status: int, body: map<string, Datum>)

  /** The report of a successful `borrar`: a fixed text, then the id. */
  function BorradoMensaje(id: Short): (m: string)
    ensures |m| > |IntToString(id)| && m[|m| - |IntToString(id)|..] == IntToString(id)
  {
    "Se borro con exito el id: " + IntToString(id)
  }

  /** A deletion report names the deleted id. */
  lemma BorradoMensajeNamesId(id: Short, other: Short)
    requires id != other
    ensures BorradoMensaje(id) != BorradoMensaje(other)
  {
    IntToStringInjective(id, other);
    var p := "Se borro con exito el id: ";
    assert BorradoMensaje(id)[|p|..] == IntToString(id);
    assert BorradoMensaje(other)[|p|..] == IntToString(other);
  }

  // ---------------------------------------------------------------------
  // The controller

  class CountryRest {
    const countryService: CountryServiceImpl

    ghost predicate Valid()
      reads this, countryService, countryService.countryRepository
    {
      countryService.Valid()
    }

    constructor (countryService: CountryServiceImpl)
      requires countryService.Valid()
      ensures Valid() && this.countryService == countryService
    {
      this.countryService := countryService;
    }

    /** `GET obtenerTodos`, which lists through `obtenerTodosOrdenadosPorId`. */
    method ObtenerTodos(fails: bool) returns (resultado: map<string, Datum>)
      ensures resultado == StatusEnvelope(countryService.ObtenerTodosOrdenadosPorId(fails).MapValue(cs => CountryItems(cs)))
      ensures resultado[ESTADO] == Text(EXITO) <==> !fails
    {
      resultado := map[];
      resultado := resultado[ESTADO := Text(EXITO)];
      var r := countryService.ObtenerTodosOrdenadosPorId(fails);
      if r.Ok? {
        resultado := resultado[DATOS := CountryItems(r.value)];
      } else {
        resultado := resultado[ESTADO := Text(ERROR)];
        resultado := resultado[DATOS := Text(r.failure.message)];
      }
    }

    /** `GET obtenerPorIdYPais/{id}/{country}`. */
    method ObtenerPorIdYPais(id: Short, country: string, fails: bool) returns (resultado: map<string, Datum>)
      ensures resultado == StatusEnvelope(countryService.ObtenerPorIdYPais(Some(id), Some(country), fails).MapValue(OfCountry))
      ensures IsBlank(country) ==> resultado[DATOS] == Text(ID_Y_NOMBRE_INVALIDOS)
      ensures resultado[ESTADO] == Text(EXITO) <==> !IsBlank(country) && !fails
    {
      resultado := map[];
      resultado := resultado[ESTADO := Text(EXITO)];
      var r := countryService.ObtenerPorIdYPais(Some(id), Some(country), fails);
      assert IsValidName(Some(country)) <==> !IsBlank(country);
      assert r.Ok? <==> !IsBlank(country) && !fails;
      if r.Ok? {
        resultado := resultado[DATOS := OfCountry(r.value)];
      } else {
        resultado := resultado[ESTADO := Text(ERROR)];
        resultado := resultado[DATOS := Text(r.failure.message)];
      }
    }

    /** `GET obtenerPorId/{id}`. */
    method ObtenerPorId(id: Short, fails: bool) returns (resultado: map<string, Datum>)
      ensures resultado == StatusEnvelope(countryService.ObtenerPorId(Some(id), fails).MapValue(OfCountry))
      ensures !fails ==> resultado[DATOS] == OfCountry(Lookup(countryService.Countries(), id))
    {
      resultado := map[];
      resultado := resultado[ESTADO := Text(EXITO)];
      var r := countryService.ObtenerPorId(Some(id), fails);
      if r.Ok? {
        resultado := resultado[DATOS := OfCountry(r.value)];
      } else {
        resultado := resultado[ESTADO := Text(ERROR)];
        resultado := resultado[DATOS := Text(r.failure.message)];
      }
    }

    /** `GET obtenerPaginacion`: 200 and `{total, rows}` when the service
        returns, a null page counting as no rows; 500 and an empty map when
        it throws. */
    method ObtenerPaginacion(limit: Int32, offset: Int32, order: string, sort: string, search: string, fails: bool)
      returns (response: ResponseEntity)
      ensures var r := countryService.ObtenerPaginacion(limit, offset, Some(order), sort, search, fails);
              && (response.status == HTTP_OK <==> r.Ok?)
              && (response.status == HTTP_INTERNAL_SERVER_ERROR <==> r.Err?)
              && (r.Err? ==> response.body == map[])
              && (r.Ok? ==> response.body.Keys == {TOTAL, ROWS})
              && (r.Ok? && r.value.Some? ==>
                    response.body[TOTAL] == Number(r.value.value.totalElements)
                    && response.body[ROWS] == CountryItems(r.value.value.content))
              && (r.Ok? && r.value.None? ==>
                    response.body[TOTAL] == Number(0) && response.body[ROWS] == CountryItems([]))
      ensures response.status == HTTP_INTERNAL_SERVER_ERROR <==> limit == 0 || fails
    {
      var paginacion: map<string, Datum> := map[];
      var r := countryService.ObtenerPaginacion(limit, offset, Some(order), sort, search, fails);
      if r.Ok? {
        var countries := r.value;
        paginacion := paginacion[TOTAL := Number(if countries.Some? then countries.value.totalElements else 0)];
        paginacion := paginacion[ROWS := CountryItems(if countries.Some? then countries.value.content else [])];
        response := ResponseEntity(HTTP_OK, paginacion);
      } else {
        response := ResponseEntity(HTTP_INTERNAL_SERVER_ERROR, paginacion);
      }
    }

    /** `GET obtenerSuma`. */
    method ObtenerSuma(fails: bool) returns (resultado: map<string, Datum>)
      ensures resultado == StatusEnvelope(countryService.ObtenerSuma(fails).MapValue(OfLong))
      ensures resultado[ESTADO] == Text(EXITO) <==> !fails
    {
      resultado := map[];
      resultado := resultado[ESTADO := Text(EXITO)];
      var r := countryService.ObtenerSuma(fails);
      if r.Ok? {
        resultado := resultado[DATOS := OfLong(r.value)];
      } else {
        resultado := resultado[ESTADO := Text(ERROR)];
        resultado := resultado[DATOS := Text(r.failure.message)];
      }
    }

    /** `GET obtenerPaisCiudadPorIdPaisYIdCiudad/{countryId}/{cityId}`. */
    method ObtenerPaisCiudadPorIdPaisYIdCiudad(countryId: Short, cityId: Short, fails: bool) returns (resultado: map<string, Datum>)
      ensures resultado == StatusEnvelope(countryService.ObtenerPaisCiudadPorIdPaisYIdCiudad(Some(countryId), Some(cityId), fails).MapValue(OfResponse))
      ensures fails ==> resultado[DATOS] == Text(PaisCiudadError(countryId, cityId))
    {
      resultado := map[];
      resultado := resultado[ESTADO := Text(EXITO)];
      var r := countryService.ObtenerPaisCiudadPorIdPaisYIdCiudad(Some(countryId), Some(cityId), fails);
      if r.Ok? {
        resultado := resultado[DATOS := OfResponse(r.value)];
      } else {
        resultado := resultado[ESTADO := Text(ERROR)];
        resultado := resultado[DATOS := Text(r.failure.message)];
      }
    }

    /** `GET obtenerNombrePaisPorPais/{country}`. */
    method ObtenerNombrePaisPorPais(country: string, fails: bool) returns (resultado: map<string, Datum>)
      ensures resultado == StatusEnvelope(countryService.ObtenerNombrePaisPorPais(Some(country), fails).MapValue(ns => Texts(ns)))
      ensures resultado[ESTADO] == Text(EXITO) <==> !fails
    {
      resultado := map[];
      resultado := resultado[ESTADO := Text(EXITO)];
      var r := countryService.ObtenerNombrePaisPorPais(Some(country), fails);
      if r.Ok? {
        resultado := resultado[DATOS := Texts(r.value)];
      } else {
        resultado := resultado[ESTADO := Text(ERROR)];
        resultado := resultado[DATOS := Text(r.failure.message)];
      }
    }

    /** `POST guardar`: binding errors are reported without calling the
        service; otherwise the saved country or the failure. */
    method Guardar(countryRequest: CountryRequest, errores: BindingResult, saveFails: bool) returns (resultado: map<string, Datum>)
      requires Valid()
      modifies countryService, countryService.countryRepository
      ensures Valid()
      ensures errores.HasErrors() ==>
                countryService.Snapshot() == old(countryService.Snapshot())
                && resultado == BindingErrorEnvelope(errores)
      ensures !errores.HasErrors() ==>
                var (r, s) := GuardarSpec(old(countryService.Snapshot()), Some(countryRequest), saveFails);
                countryService.Snapshot() == s && resultado == StatusEnvelope(r.MapValue(c => CountryItem(c)))
    {
      resultado := map[];
      if !errores.HasErrors() {
        resultado := resultado[ESTADO := Text(EXITO)];
        var r := countryService.Guardar(Some(countryRequest), saveFails);
        if r.Ok? {
          resultado := resultado[DATOS := CountryItem(r.value)];
        } else {
          resultado := resultado[ESTADO := Text(ERROR)];
          resultado := resultado[DATOS := Text(r.failure.message)];
        }
      } else {
        var mensaje := CollectFieldErrors(errores.fieldErrors);
        resultado := resultado[ESTADO := Text(ERROR)];
        resultado := resultado[DATOS := Texts(mensaje)];
      }
    }

    /** `PUT actualizar/{countryId}`. */
    method Actualizar(countryRequest: CountryRequest, countryId: Short, errores: BindingResult, findFails: bool, saveFails: bool)
      returns (resultado: map<string, Datum>)
      requires Valid()
      modifies countryService, countryService.countryRepository
      ensures Valid()
      ensures errores.HasErrors() ==>
                countryService.Snapshot() == old(countryService.Snapshot())
                && resultado == BindingErrorEnvelope(errores)
      ensures !errores.HasErrors() ==>
                var (r, s) := ActualizarSpec(old(countryService.Snapshot()), Some(countryRequest), Some(countryId), findFails, saveFails);
                countryService.Snapshot() == s && resultado == StatusEnvelope(r.MapValue(c => CountryItem(c)))
    {
      resultado := map[];
      if !errores.HasErrors() {
        resultado := resultado[ESTADO := Text(EXITO)];
        var r := countryService.Actualizar(Some(countryRequest), Some(countryId), findFails, saveFails);
        if r.Ok? {
          resultado := resultado[DATOS := CountryItem(r.value)];
        } else {
          resultado := resultado[ESTADO := Text(ERROR)];
          resultado := resultado[DATOS := Text(r.failure.message)];
        }
      } else {
        var mensaje := CollectFieldErrorsForEach(errores.fieldErrors);
        resultado := resultado[ESTADO := Text(ERROR)];
        resultado := resultado[DATOS := Texts(mensaje)];
      }
    }

    /** `PUT actualizarPais/{id}/{country}`. A repository failure is not an
        InternalException, so it leaves the handler: None. */
    method ActualizarPais(id: Short, country: string, updateFails: bool, findFails: bool)
      returns (resultado: Option<map<string, Datum>>)
      requires Valid()
      modifies countryService.countryRepository
      ensures Valid()
      ensures var (r, s) := ActualizarPaisSpec(old(countryService.Snapshot()), Some(id), Some(country), updateFails, findFails);
              && countryService.Snapshot() == s
              && (r.IsTranslated() ==> resultado == Some(StatusEnvelope(r.MapValue(OfCountry))))
              && (!r.IsTranslated() ==> resultado == None)
      ensures resultado.None? <==> !IsBlank(country) && (updateFails || findFails)
    {
      var m: map<string, Datum> := map[];
      m := m[ESTADO := Text(EXITO)];
      var r := countryService.ActualizarPais(Some(id), Some(country), updateFails, findFails);
      if r.Ok? {
        m := m[DATOS := OfCountry(r.value)];
        resultado := Some(m);
        assert m == StatusEnvelope(r.MapValue(OfCountry));
      } else if r.failure.Internal? {
        m := m[ESTADO := Text(ERROR)];
        m := m[DATOS := Text(r.failure.message)];
        resultado := Some(m);
        assert m == StatusEnvelope(r.MapValue(OfCountry));
      } else {
        resultado := None;
      }
    }

    /** `DELETE borrar/{id}`: the success message is put only once the
        service call has returned. */
    method Borrar(id: Short, findFails: bool, deleteFails: bool) returns (resultado: map<string, Datum>)
      requires Valid()
      modifies countryService.countryRepository
      ensures Valid()
      ensures var (r, s) := BorrarSpec(old(countryService.Snapshot()), Some(id), findFails, deleteFails);
              && countryService.Snapshot() == s
              && resultado == StatusEnvelope(r.MapValue(_ => Text(BorradoMensaje(id))))
      ensures resultado[ESTADO] == Text(EXITO) <==> id in old(countryService.Countries()) && !findFails && !deleteFails
    {
      resultado := map[];
      var r := countryService.Borrar(Some(id), findFails, deleteFails);
      if r.Ok? {
        resultado := resultado[ESTADO := Text(EXITO)];
        resultado := resultado[DATOS := Text(BorradoMensaje(id))];
      } else {
        resultado := resultado[ESTADO := Text(ERROR)];
        resultado := resultado[DATOS := Text(r.failure.message)];
      }
    }
  }
}
