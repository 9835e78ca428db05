/** `RestClient`: holds an endpoint and a header collection, and hands out
    requests whose headers are seeded from it. The process-wide transport
    every request of a client shares is passed in as `HttpState`; the
    transport's `Execute` is the parameter `transport`. */
module Clients {
  import opened Wrappers
  import Text
  import opened NameValues
  import opened Uris
  import opened Parameters
  import opened ContentHandlers
  import opened Responses
  import opened RestRequests

  datatype RestClient = RestClient(endpoint: Uri, headers: Collection)

  /** `new RestClient(endPoint)`: no headers yet. */
  function NewClient(endpoint: Uri): (c: RestClient)
    ensures c.endpoint == endpoint
    ensures WellFormed(c.headers)
    ensures forall k :: NameValues.Get(c.headers, k).None?
  {
    RestClient(endpoint, [])
  }

  /** `client.AddHeader(name, value)`: adds to the client's collection only. */
  function AddClientHeader(c: RestClient, name: string, value: Option<string>): (r: RestClient)
    ensures r.endpoint == c.endpoint
    ensures WellFormed(c.headers) ==> WellFormed(r.headers)
    ensures forall k :: NameValues.Get(r.headers, k) == if SameKey(k, name) then Appended(NameValues.Get(c.headers, k), value)
                                                      else NameValues.Get(c.headers, k)
  {
    AddWellFormed(c.headers, name, value);
    var r := c.(headers := Add(c.headers, name, value));
    forall k ensures NameValues.Get(r.headers, k) == if SameKey(k, name) then Appended(NameValues.Get(c.headers, k), value)
                                                     else NameValues.Get(c.headers, k)
    {
      GetAfterAdd(c.headers, name, value, k);
    }
    r
  }

  /** `BuildRequest(resourceName)`: a fresh request for the resource, given
      each of the client's headers with the value the client reports for
      it at this moment. */
  function BuildRequest(c: RestClient, resourceName: Option<string>): (r: RestRequest)
    ensures r.endpoint == c.endpoint && r.resourceName == resourceName
    ensures r.parameters == [] && r.jsonSerializer == Serializer(Some(JsonContentType))
    ensures WellFormed(c.headers) ==>
              && AllKeys(r.headers) == AllKeys(c.headers)
              && forall k :: NameValues.Get(r.headers, k) == NameValues.Get(c.headers, k)
  {
    var request := NewRequest(c.endpoint, resourceName);
    SeededHeaders(c.headers);
    request.(headers := CopyInto(request.headers, c.headers))
  }

  lemma SeededHeaders(h: Collection)
    ensures WellFormed(h) ==>
              && AllKeys(CopyInto([], h)) == AllKeys(h)
              && forall k :: NameValues.Get(CopyInto([], h), k) == NameValues.Get(h, k)
  {
    if WellFormed(h) {
      CopyIntoEmpty(h, "");
      forall k ensures NameValues.Get(CopyInto([], h), k) == NameValues.Get(h, k) {
        CopyIntoEmpty(h, k);
      }
    }
  }

  /** `client.Resource(resourceName)`: a request for the resource at the
      client's endpoint, with no parameters yet, the JSON serializer, and
      the client's headers as they are now. */
  function Resource(c: RestClient, resourceName: Option<string>): (r: RestRequest)
    ensures r.endpoint == c.endpoint && r.resourceName == resourceName
    ensures r.parameters == [] && r.jsonSerializer == Serializer(Some(JsonContentType))
    ensures WellFormed(c.headers) ==>
              && AllKeys(r.headers) == AllKeys(c.headers)
              && forall k :: NameValues.Get(r.headers, k) == NameValues.Get(c.headers, k)
  {
    BuildRequest(c, resourceName)
  }

  /** `client.Get()`: a request with no resource name, executed at once. */
  function Get(c: RestClient, http: HttpState, escape: string -> string, transport: Transport): (r: Result<Outcome>)
    requires Valid(c.endpoint)
    ensures r.Success?
    ensures r.value.http.url == Some(c.endpoint.(port := if IsDefaultPort(c.endpoint) then -1 else c.endpoint.port))
    ensures Extends(http.headers, r.value.http.headers)
    ensures r.value.http.requestBody == http.requestBody
    ensures r.value.http.requestContentType == http.requestContentType
    ensures WellFormed(c.headers) ==>
              forall k :: NameValues.Get(r.value.http.headers, k)
                       == Appended(NameValues.Get(http.headers, k), NameValues.Get(c.headers, k))
    ensures r.value.response == ToRestResponse(transport(GET, r.value.http))
  {
    var request := BuildRequest(c, None);
    BareRequestUri(c, escape);
    RestRequests.Get(request, http, None, escape, transport)
  }

  /** A request without resource name, identifier or parameters addresses
      the endpoint itself, the default port dropped. */
  lemma BareRequestUri(c: RestClient, escape: string -> string)
    requires Valid(c.endpoint)
    ensures BuildUri(BuildRequest(c, None), None, escape)
         == Success(c.endpoint.(port := if IsDefaultPort(c.endpoint) then -1 else c.endpoint.port))
  {
    var request := BuildRequest(c, None);
    assert !Text.IsWhiteSpace(c.endpoint.path[0]);
    assert CombinedPath(request, None) == c.endpoint.path;
    assert Kept(request.parameters, QueryString) == [] && Kept(request.parameters, Matrix) == [];
  }

  /** `client.Get<T>()`: `Get()` followed by the typing rule. With `resp`
      the transport's answer converted to a `RestResponse`: no content, or a
      status other than 200 and 201, gives default data; otherwise a null
      content type throws `ArgumentNullException`, an unregistered one a
      null dereference, and a registered one gives what its handler
      deserializes. */
  function GetTyped<T>(c: RestClient, http: HttpState, escape: string -> string, transport: Transport,
                       registry: Registry, dflt: T, deserialize: (Deserializer, string) -> Result<T>): (r: Result<(Outcome, TypedResponse<T>)>)
    requires Valid(c.endpoint)
    ensures r.Success? ==> var plain := Get(c, http, escape, transport).value;
                           r.value.0 == plain && r.value.1.response == plain.response
    ensures var resp := Get(c, http, escape, transport).value.response;
            resp.content.None? || !IsSuccessStatus(resp.statusCode) ==> r.Success? && r.value.1.data == dflt
    ensures var resp := Get(c, http, escape, transport).value.response;
            resp.content.Some? && IsSuccessStatus(resp.statusCode) && resp.contentType.None? ==>
              r == Failure(ArgumentNull("contentType"))
    ensures var resp := Get(c, http, escape, transport).value.response;
            resp.content.Some? && IsSuccessStatus(resp.statusCode) && resp.contentType.Some?
              && resp.contentType.value !in registry ==>
              r == Failure(NullReference)
    ensures var resp := Get(c, http, escape, transport).value.response;
            resp.content.Some? && IsSuccessStatus(resp.statusCode) && resp.contentType.Some?
              && resp.contentType.value in registry ==>
              var d := deserialize(registry[resp.contentType.value], resp.content.value);
              && (r.Success? <==> d.Success?)
              && (r.Success? ==> r.value.1.data == d.value)
              && (r.Failure? ==> r.error == d.error)
  {
    var plain := Get(c, http, escape, transport).value;
    var typed :- ToGenericResponse(plain.response, registry, dflt, deserialize);
    Success((plain, typed))
  }

  /** `client.Get<T>()` reads the content handlers only for a 200 or 201
      answer with content: otherwise any two registries give the same
      result, the default data. */
  lemma GetTypedRegistryNotConsulted<T>(
    c: RestClient, http: HttpState, escape: string -> string, transport: Transport,
    registry1: Registry, registry2: Registry, dflt: T, deserialize: (Deserializer, string) -> Result<T>)
    requires Valid(c.endpoint)
    requires var resp := Get(c, http, escape, transport).value.response;
             resp.content.None? || !IsSuccessStatus(resp.statusCode)
    ensures GetTyped(c, http, escape, transport, registry1, dflt, deserialize)
         == GetTyped(c, http, escape, transport, registry2, dflt, deserialize)
  {
    RegistryNotConsulted(Get(c, http, escape, transport).value.response, registry1, registry2, dflt, deserialize);
  }

  /** A request keeps the headers it was given: adding a header to the
      client afterwards reaches requests built later and not those built
      before. */
  lemma HeadersAreSnapshot(c: RestClient, resourceName: Option<string>, name: string, value: string)
    requires WellFormed(c.headers)
    ensures var before := Resource(c, resourceName);
            var c2 := AddClientHeader(c, name, Some(value));
            var after := Resource(c2, resourceName);
            && NameValues.Get(before.headers, name) == NameValues.Get(c.headers, name)
            && NameValues.Get(after.headers, name) == Appended(NameValues.Get(c.headers, name), Some(value))
            && NameValues.Get(after.headers, name) != NameValues.Get(before.headers, name)
  {
    var c2 := AddClientHeader(c, name, Some(value));
    assert SameKey(name, name);
    var old_ := NameValues.Get(c.headers, name);
    if old_.Some? {
      assert |old_.value + "," + value| > |old_.value|;
    }
  }
}
