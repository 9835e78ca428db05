/** Responses: the transport's `HttpResponse`, the library's `RestResponse`,
    the typed `RestResponse<T>`, and the two conversions between them
    (`ToRestResponse` and `ToGenericResponse<T>`). */
module Responses {
  import opened Wrappers
  import opened NameValues
  import opened ContentHandlers

  /** What the transport returns. */
  datatype HttpResponse = HttpResponse(
    statusCode: int,
    statusDescription: Option<string>,
    content: Option<string>,
    contentType: Option<string>,
    headers: Collection)

  /** `RestResponse`: the same five fields. */
  datatype RestResponse = RestResponse(
    statusCode: int,
    statusDescription: Option<string>,
    content: Option<string>,
    contentType: Option<string>,
    headers: Collection)

  /** `RestResponse<T>`: a response together with its typed `Data`. */
  datatype TypedResponse<T> = TypedResponse(response: RestResponse, data: T)

  const OK: int := 200
  const Created: int := 201

  /** `httpResponse.ToRestResponse()`: every field carried over unchanged
      (the header collection is the same object, shared, not copied). */
  function ToRestResponse(h: HttpResponse): (r: RestResponse)
    ensures r.statusCode == h.statusCode
    ensures r.statusDescription == h.statusDescription
    ensures r.content == h.content && r.contentType == h.contentType
    ensures r.headers == h.headers
  {
    RestResponse(h.statusCode, h.statusDescription, h.content, h.contentType, h.headers)
  }

  /** A status for which the body is deserialized. */
  predicate IsSuccessStatus(statusCode: int) {
    statusCode == OK || statusCode == Created
  }

  /** `response.ToGenericResponse<T>()`. `dflt` is `default(T)`;
      `deserialize(d, text)` is `d.Deserialize<T>(text)`, which may fail. */
  function ToGenericResponse<T>(
    response: RestResponse,
    registry: Registry,
    dflt: T,
    deserialize: (Deserializer, string) -> Result<T>
  ): (r: Result<TypedResponse<T>>)
    ensures r.Success? ==> r.value.response == response
    ensures response.content.None? ==> r == Success(TypedResponse(response, dflt))
    ensures response.content.Some? && !IsSuccessStatus(response.statusCode) ==>
              r == Success(TypedResponse(response, dflt))
    ensures response.content.Some? && IsSuccessStatus(response.statusCode) ==>
              && (response.contentType.None? ==> r == Failure(ArgumentNull("contentType")))
              && (response.contentType.Some? && response.contentType.value !in registry ==>
                    r == Failure(NullReference))
              && (response.contentType.Some? && response.contentType.value in registry ==>
                    var d := deserialize(registry[response.contentType.value], response.content.value);
                    (r.Success? <==> d.Success?) && (r.Success? ==> r.value.data == d.value))
  {
    if response.content.None? then
      Success(TypedResponse(response, dflt))
    else if IsSuccessStatus(response.statusCode) then
      var handler :- GetContentDeserializer(registry, response.contentType);
      if handler.None? then Failure(NullReference)
      else
        var data :- deserialize(handler.value, response.content.value);
        Success(TypedResponse(response, data))
    else
      Success(TypedResponse(response, dflt))
  }

  /** Without content, or with a status other than 200 and 201, the
      registry is not consulted: any two registries give the same result. */
  lemma RegistryNotConsulted<T>(
    response: RestResponse, registry1: Registry, registry2: Registry,
    dflt: T, deserialize: (Deserializer, string) -> Result<T>)
    requires response.content.None? || !IsSuccessStatus(response.statusCode)
    ensures ToGenericResponse(response, registry1, dflt, deserialize)
         == ToGenericResponse(response, registry2, dflt, deserialize)
  {
  }

  /** Typed data other than the default can only come from deserializing
      the content of a 200 or 201 response through the registered handler. */
  lemma DataComesFromHandler<T>(
    response: RestResponse, registry: Registry,
    dflt: T, deserialize: (Deserializer, string) -> Result<T>)
    requires ToGenericResponse(response, registry, dflt, deserialize).Success?
    requires ToGenericResponse(response, registry, dflt, deserialize).value.data != dflt
    ensures response.content.Some? && IsSuccessStatus(response.statusCode)
    ensures response.contentType.Some? && response.contentType.value in registry
    ensures deserialize(registry[response.contentType.value], response.content.value)
         == Success(ToGenericResponse(response, registry, dflt, deserialize).value.data)
  {
  }

  /** A 404 with a body yields default data. */
  lemma NotFoundGivesDefault<T>(
    response: RestResponse, registry: Registry,
    dflt: T, deserialize: (Deserializer, string) -> Result<T>)
    requires response.statusCode == 404
    ensures ToGenericResponse(response, registry, dflt, deserialize) == Success(TypedResponse(response, dflt))
  {
  }

  /** The older `ToGenericResponse<T>`: its response type carries only the
      status, the content and the content type, and only status 200 is
      deserialized. */
  function ToGenericResponseLegacy<T>(
    response: RestResponse,
    registry: Registry,
    dflt: T,
    deserialize: (Deserializer, string) -> Result<T>
  ): (r: Result<TypedResponse<T>>)
    ensures r.Success? ==>
              r.value.response == RestResponse(response.statusCode, None, response.content, response.contentType, [])
    ensures response.statusCode != OK ==> r.Success? && r.value.data == dflt
  {
    var copied := RestResponse(response.statusCode, None, response.content, response.contentType, []);
    if response.content.None? then
      Success(TypedResponse(copied, dflt))
    else if response.statusCode == OK then
      var handler :- GetContentDeserializer(registry, response.contentType);
      if handler.None? then Failure(NullReference)
      else
        var data :- deserialize(handler.value, response.content.value);
        Success(TypedResponse(copied, data))
    else
      Success(TypedResponse(copied, dflt))
  }

  /** The two typing rules decide `Data` alike except for a 201 with a body,
      which only the current one deserializes. */
  lemma LegacyDiffersOnlyOnCreated<T>(
    response: RestResponse, registry: Registry,
    dflt: T, deserialize: (Deserializer, string) -> Result<T>)
    ensures var now := ToGenericResponse(response, registry, dflt, deserialize);
            var legacy := ToGenericResponseLegacy(response, registry, dflt, deserialize);
            !(response.statusCode == Created && response.content.Some?) ==>
              && (now.Success? <==> legacy.Success?)
              && (now.Success? ==> now.value.data == legacy.value.data)
              && (now.Failure? ==> now.error == legacy.error)
    ensures response.statusCode == Created && response.content.Some? ==>
              ToGenericResponseLegacy(response, registry, dflt, deserialize)
                == Success(TypedResponse(
                     RestResponse(Created, None, response.content, response.contentType, []), dflt))
  {
  }
}
