/** `ContentHandlerProvider`: the registry that maps a response content type
    to the deserializer that reads it. The process-wide dictionary is a
    parameter here; the deserializers themselves are foreign code and are
    represented by name only. */
module ContentHandlers {
  import opened Wrappers

  datatype Deserializer = NewtonsoftJson | DotNetXml

  /** Keys compare with the dictionary's default, ordinal comparer. */
  type Registry = map<string, Deserializer>

  /** The registry the static constructor installs: four JSON media types,
      the XML entries being commented out. */
  const DefaultRegistry: Registry := map[
    "application/json" := NewtonsoftJson,
    "text/json" := NewtonsoftJson,
    "text/x-json" := NewtonsoftJson,
    "text/javascript" := NewtonsoftJson
  ]

  /** `GetContentDeserializer(contentType)`: throws on a null content type,
      otherwise returns the handler stored under exactly that key, or null. */
  function GetContentDeserializer(registry: Registry, contentType: Option<string>): (r: Result<Option<Deserializer>>)
    ensures r.Failure? <==> contentType.None?
    ensures r.Failure? ==> r.error == ArgumentNull("contentType")
    ensures r.Success? ==> (r.value.Some? <==> contentType.value in registry)
    ensures r.Success? && r.value.Some? ==> r.value.value == registry[contentType.value]
  {
    if contentType.None? then Failure(ArgumentNull("contentType"))
    else if contentType.value in registry then Success(Some(registry[contentType.value]))
    else Success(None)
  }

  /** The default registry answers exactly the four JSON media types, each
      with the JSON deserializer. */
  lemma DefaultRegistryLookup(contentType: string)
    ensures GetContentDeserializer(DefaultRegistry, Some(contentType)).Success?
    ensures GetContentDeserializer(DefaultRegistry, Some(contentType)).value.Some? <==>
              contentType in {"application/json", "text/json", "text/x-json", "text/javascript"}
    ensures GetContentDeserializer(DefaultRegistry, Some(contentType)).value.Some? ==>
              GetContentDeserializer(DefaultRegistry, Some(contentType)).value.value == NewtonsoftJson
  {
  }

  /** Matching is by exact key: a media type with parameters, in another
      case, or an XML type finds no handler. */
  lemma ExactMatchOnly()
    ensures GetContentDeserializer(DefaultRegistry, Some("application/json; charset=utf-8")) == Success(None)
    ensures GetContentDeserializer(DefaultRegistry, Some("Application/JSON")) == Success(None)
    ensures GetContentDeserializer(DefaultRegistry, Some("application/xml")) == Success(None)
  {
  }
}
