# RestLib and CombineCs, modelled in Dafny

RestLib is a small REST client for .NET. A `RestClient` holds an endpoint
and a header collection. It hands out `RestRequest`s that accumulate
headers, query parameters, matrix (path) parameters and a body. A request
builds its URI by joining path segments with `PathCombine` and drops the
scheme's default port (section 6.2.3 of RFC 3986). It keeps only the
parameters whose values are not blank and renders them as `name=value`:
joined by `&` into the query (section 3.4 of RFC 3986), or appended to the
path after `;` (section 3.3 of RFC 3986). Names and values go through
`UrlEncode`, which hands long strings to `Uri.EscapeDataString` in chunks of
32766 characters.

The request configures a shared transport and executes it. The answer is
copied into a `RestResponse`. `ToGenericResponse<T>` turns that into a typed
response: it deserializes the body with the handler registered for the
content type, but only for status 200 or 201. `ContentHandlerProvider` is
that registry.

CombineCs is a command-line helper that merges the `.cs` files of a
directory into one file. For each file it:

- sorts each line into `using` lines, dropped lines and code lines;
- drops blank lines at the start of the code.

It then writes:

- all distinct `using` lines in order;
- one `namespace CombineCs` block;
- the files' code inside that block, enums first, then interfaces, then the
  rest.

The Dafny modules follow the source files:

| module | file | models |
|---|---|---|
| `Wrappers` | wrappers.dfy | `Option`, `Result` and the exceptions the code throws |
| `Text` | text.dfy | the `string` methods used: `IsNullOrWhiteSpace`, `StartsWith`, `Contains`, `TrimStart`/`TrimEnd`, `Join`, `Split`, ordinal order |
| `NameValues` | name_values.dfy | `NameValueCollection`: `Add`, the indexer, `AllKeys` |
| `Parameters` | parameters.dfy | `Parameter` and `ParameterType` |
| `Uris` | uris.dfy | the parts of a `Uri` that `BuildUri` touches |
| `ContentHandlers` | content_handlers.dfy | `ContentHandlerProvider` |
| `Responses` | responses.dfy | `ToRestResponse`, `ToGenericResponse<T>` and its older 200-only variant |
| `UrlEncoding` | url_encoding.dfy | `StringExtensions.UrlEncode` |
| `RestRequests` | rest_request.dfy | `RestRequest` |
| `Clients` | rest_client.dfy | `RestClient` |
| `SourceFiles` | source_file.dfy | `SourceFile` |
| `CsFileReaders` | cs_file_reader.dfy | `CsFileReader.ReadFiles` |
| `FirstLineComparers` | first_line_comparer.dfy | `FirstLineComparer` |
| `CsFileWriters` | cs_file_writer.dfy | `CsFileWriter.CombineIntoSingleFile` |

Some platform behaviour is not modelled and is passed in as a function
parameter instead:

- `Uri.EscapeDataString` (`escape`);
- the JSON serializer (`serialize`);
- a handler's `Deserialize<T>` (`deserialize`, which may fail);
- the transport's `Execute` (`transport`).

C# `null` is `None`. A thrown exception is a `Failure` naming it.

## Model

| member | source | states |
|---|---|---|
| RestRequests.PathCombine | src/RestLib/RestRequest.cs:161-177 | A blank first path gives the second unchanged. Otherwise a blank second path gives the first unchanged. Otherwise the result is the first path without trailing `/` or `\`, exactly one `/`, then the second path without leading separators, and it is not blank. |
| RestRequests.PathCombineAtRoot | src/RestLib/RestRequest.cs:161-177 | Under the root path `/`, a segment that does not start with a separator is appended after a single `/`. |
| RestRequests.PathCombinePlain | src/RestLib/RestRequest.cs:161-177 | Two non-blank segments with no separator at the seam are joined by exactly one `/`. |
| RestRequests.CombinedPath | src/RestLib/RestRequest.cs:121 | The path made from endpoint path, resource name and identifier is never blank. |
| RestRequests.RootResourcePaths | src/RestLib/RestRequest.cs:118-121 | Under the root path, resource `rn` gives the path `/rn`, and identifier `id` gives `/rn/id`. |
| RestRequests.RootResourceWithId | src/RestLib/RestRequest.cs:161-177 | Joining `/rn` and `id` gives `/rn/id`. |
| RestRequests.EndpointPathExamples | src/RestLib.Tests/RestRequestTests.cs:23-35 | For `http://endpoint.com` and resource `resource`, `Get()` addresses `/resource` and `Get("1")` addresses `/resource/1`. |
| RestRequests.EndpointUriExamples | src/RestLib.Tests/RestRequestTests.cs:23-35 | The full URIs of those two requests: scheme and host kept, default port cleared, empty query. |
| RestRequests.Kept | src/RestLib/RestRequest.cs:129-131 | Every surviving parameter has the requested kind and a value that is not null, empty or white space. |
| RestRequests.KeptExactly | src/RestLib/RestRequest.cs:12 | The filter (with `OmitEmptyParameters` true) keeps every parameter of the kind with a non-blank value, and keeps nothing that was not added. |
| RestRequests.KeptAppend | src/RestLib/RestRequest.cs:137-139 | Appending a parameter adds it to the surviving list of its kind exactly when it renders, and at the end, so insertion order is kept. |
| RestRequests.Pairs | src/RestLib/RestRequest.cs:151 | One rendered pair per surviving parameter, in order. Pair `i` is parameter `i` rendered as encoded name, `=`, encoded value. |
| RestRequests.EncodeAllOutcome | src/RestLib/RestRequest.cs:149-159 | Encoding the surviving parameters throws `ArgumentNullException("input")` exactly when one of them has a null name. Otherwise it gives their pairs. Values are never null there, so the `name=` branch is unreachable. |
| RestRequests.EncodeAllSucceeds | src/RestLib/RestRequest.cs:154-158 | With every name present, encoding succeeds and gives exactly the rendered pairs. |
| RestRequests.EncodeAllFails | src/RestLib/RestRequest.cs:151 | With some name missing, encoding fails with the null-argument error of `UrlEncode`. |
| RestRequests.BuildUri | src/RestLib/RestRequest.cs:118-147 | Succeeds exactly when every surviving query and matrix parameter has a name. Keeps scheme and host, and clears the port exactly when it is the scheme's default. The query is the endpoint's own when no query parameter survives, else the pairs joined by `&`. The path is the combined path, followed by `;` and the matrix pairs joined by `;` when any survive. |
| RestRequests.QueryRoundTrip | src/RestLib/RestRequest.cs:132-135 | When the encoding emits neither `&` nor `=`, the query splits at `&` into one piece per surviving query parameter, in order. Each piece splits at `=` into exactly that parameter's encoded name and value. |
| RestRequests.PairSplits | src/RestLib/RestRequest.cs:154-158 | A rendered pair contains no `&` and splits at `=` into the encoded name and value. |
| RestRequests.BuildUriDependsOnlyOnKept | src/RestLib/RestRequest.cs:129-144 | Two requests with the same endpoint, resource and surviving parameters build the same URI: filtered-out parameters have no effect. |
| RestRequests.BuildUriIgnoresBody | src/RestLib/RestRequest.cs:129-139 | Adding a body parameter never changes the URI. |
| RestRequests.AddBlankParameterIgnored | src/RestLib/RestRequest.cs:130 | Adding a parameter whose value is null, empty or white space leaves the URI unchanged. |
| RestRequests.AddParameterKeepsOtherPart | src/RestLib/RestRequest.cs:129-144 | Adding a named parameter keeps the build successful. A non-query parameter leaves the query unchanged, and a non-matrix parameter leaves the path unchanged. |
| RestRequests.AddQueryParameterEffect | src/RestLib/RestRequest.cs:87-91 | After `AddQueryParameter(name, value)`, a blank value leaves the URI as it was. Otherwise the path is unchanged. The query becomes the new pair alone when no query parameter survived before, replacing the endpoint's own query; otherwise it becomes the old query, `&`, and the new pair. |
| RestRequests.AddQueryPairEffect | src/RestLib/RestRequest.cs:132-135 | A surviving query parameter is rendered at the end of the query, after `&` unless it is the first. |
| RestRequests.AddMatrixParameterEffect | src/RestLib/RestRequest.cs:75-79 | After `AddMatrixParameter(name, value)`, a blank value leaves the URI as it was. Otherwise the query is unchanged and the path gains `;` and the new pair at its end. |
| RestRequests.AddMatrixPairEffect | src/RestLib/RestRequest.cs:140-144 | A surviving matrix parameter is rendered at the end of the path after `;`. |
| RestRequests.TwoMatrixParametersThenBlank | src/RestLib.Tests/RestRequestTests.cs:82-94 | Adding two matrix parameters with values and a third with a blank value appends exactly `;n1=v1;n2=v2` to the path. |
| RestRequests.MatrixExample | src/RestLib.Tests/RestRequestTests.cs:84-89 | The example request addresses `/resource;matrixparam1=value1;matrixparam2=value2`, and the empty `matrixparam3` is omitted. |
| RestRequests.PairsAppendJoin | src/RestLib/RestRequest.cs:151 | Rendering one more parameter appends its pair after the delimiter, or alone if it is the first. |
| RestRequests.AddQueryParameter | src/RestLib/RestRequest.cs:87-91 | Appends exactly one query parameter with the given name and value, and nothing else about the request changes. |
| RestRequests.AddMatrixParameter | src/RestLib/RestRequest.cs:75-79 | Appends exactly one matrix parameter with the given name and value, and nothing else about the request changes. |
| RestRequests.AddHeader | src/RestLib/RestRequest.cs:81-85 | Only the headers change. Existing entries are kept, and the collection stays free of duplicate keys. The indexer now reports the old value followed by the new one under the added name, and the same as before under every other name. |
| RestRequests.FirstBody | src/RestLib/RestRequest.cs:110 | `None` exactly when no parameter is a body. Otherwise it is the first body parameter in insertion order. |
| RestRequests.FirstBodyAppend | src/RestLib/RestRequest.cs:110 | Appending a parameter changes the first body only when there was none and the new parameter is a body. |
| RestRequests.ConfigureHttp | src/RestLib/RestRequest.cs:102-116 | The transport URL becomes the URI. The request's headers are added to the transport's collection without removing anything. Without a body parameter, the transport's body and content type are left as they were. Otherwise they become the first body's value and name. |
| RestRequests.Get | src/RestLib/RestRequest.cs:51-67 | With a transport that always answers, it succeeds exactly when the URI builds. The request is unchanged, and the transport is pointed at the built URI with the request headers appended. The transport's body and content type become the first body parameter's value and name. Without a body parameter, they stay as they were. The response is the transport's answer converted field by field. |
| RestRequests.Post | src/RestLib/RestRequest.cs:35-42 | Builds the URI first, then appends one body parameter named by the serializer's content type with the serialized object as value. It posts to that URI. The body and content type sent are the first body parameter's value and name. The request headers are appended to the transport's collection, and nothing is removed from it. |
| RestRequests.SecondPostResendsFirstBody | src/RestLib/RestRequest.cs:110-115 | A first `Post` on a request with no body sends the first object. A second `Post` on the same request adds a second body parameter but sends the first object's text again. Both times the content type sent is the serializer's. |
| RestRequests.RepeatedGetDuplicatesHeaders | src/RestLib/RestRequest.cs:105-108 | The shared transport collection is never cleared. A header `v` is sent as `v` by the first `Get` and as `v,v` by a second one. |
| Responses.ToRestResponse | src/RestLib/HttpResponseExtensions.cs:5-15 | Status code, status description, content, content type and headers are copied unchanged. |
| Responses.ToGenericResponse | src/RestLib/RestResponseExtensions.cs:7-36 | The response's five fields are kept. Null content gives default data. Content with a status other than 200 or 201 gives default data. Content with 200 or 201 gives one of: `ArgumentNullException` for a null content type; a null dereference for an unregistered one; otherwise what the registered handler deserializes, its failure included. |
| Responses.RegistryNotConsulted | src/RestLib/RestResponseExtensions.cs:18-32 | Without content, or with a status other than 200 or 201, the registry is not consulted: any two registries give the same result. |
| Responses.DataComesFromHandler | src/RestLib/RestResponseExtensions.cs:24-27 | Data other than the default can only come from a 200 or 201 response with content and a registered content type. It is what that handler deserializes. |
| Responses.NotFoundGivesDefault | src/RestLib.Tests/RestClientTests.cs:102-110 | A 404 response, with or without content, has default data. |
| Responses.ToGenericResponseLegacy | src/RestLib/RestClient.cs:256-283 | Keeps only status, content and content type. Any status other than 200 gives default data. |
| Responses.LegacyDiffersOnlyOnCreated | src/RestLib/RestClient.cs:271 | The older rule decides success, data and failure like the current one, except on a 201 with content, where the older one returns default data. |
| ContentHandlers.GetContentDeserializer | src/RestLib/ContentHandlerProvider.cs:24-36 | Throws `ArgumentNullException("contentType")` exactly for a null content type. Otherwise it returns a handler exactly when the key is registered, and that handler is the one stored under the key. |
| ContentHandlers.DefaultRegistryLookup | src/RestLib/ContentHandlerProvider.cs:10-19 | The default registry answers exactly `application/json`, `text/json`, `text/x-json` and `text/javascript`, each with the JSON deserializer. |
| ContentHandlers.ExactMatchOnly | src/RestLib/ContentHandlerProvider.cs:30 | Lookup is by exact, case-sensitive key. A media type with parameters, in another case, or XML finds no handler. |
| UrlEncoding.UrlEncode | src/RestLib/RestClient.cs:292-314 | Fails with `ArgumentNullException("input")` exactly for a null input. |
| UrlEncoding.UrlEncodeLoop | src/RestLib/RestClient.cs:292-314 | Computes `UrlEncode`. A null input makes no escape call, and an input of at most 32766 characters makes one on the whole string. A longer input is cut into non-empty pieces of at most 32766 characters, all but the last full, that concatenate back to the input. The result is the concatenation of the escaped pieces. |
| UrlEncoding.EncodeChunks | src/RestLib/RestClient.cs:304-311 | The loop visits exactly the chunks of the input, in order, and appends the escaping of each to the builder. |
| UrlEncoding.ChunksCover | src/RestLib/RestClient.cs:306-310 | The chunks are non-empty, at most 32766 long, and all but the last exactly that long. Together they are the input, each element once and in order. |
| UrlEncoding.ChunksStep | src/RestLib/RestClient.cs:306-307 | The chunk starting at `index` is the substring of length `min(length - index, max)`. |
| UrlEncoding.ChunkedEqualsWhole | src/RestLib/RestClient.cs:298-313 | For an escaping that respects concatenation, chunking is invisible: the result is the escaping of the whole input. |
| UrlEncoding.UrlEncodeAvoids | src/RestLib/RestClient.cs:309 | A character the escaping never emits does not occur in the encoding of any input. |
| UrlEncoding.ChunkBoundarySplitsSurrogatePair | src/RestLib/RestClient.cs:306-307 | Chunking does not respect surrogate pairs: 32765 code units then a surrogate pair gives a first chunk ending in the high surrogate and a second starting with the low one. |
| Clients.NewClient | src/RestLib/RestClient.cs:32-38 | A new client has the given endpoint and an empty, well-formed header collection. |
| Clients.AddClientHeader | src/RestLib/RestClient.cs:54-57 | Only the client's collection changes, and the endpoint is unchanged. The indexer reports the old value followed by the new one under the added name, and the same as before elsewhere. |
| Clients.BuildRequest | src/RestLib/RestClient.cs:64-72 | A fresh request has the client's endpoint, the resource name, no parameters and the JSON serializer. Its headers hold the client's keys in order, each reporting the same value as the client's. |
| Clients.SeededHeaders | src/RestLib/RestClient.cs:67-70 | Copying a well-formed collection into an empty one keeps its keys in order and the value under every key. |
| Clients.Resource | src/RestLib/RestClient.cs:59-62 | The request targets the client's endpoint with the given resource name. It has no parameters and the JSON serializer. With well-formed client headers, it has the same header names, and each name has the value the client reports for it. |
| Clients.Get | src/RestLib/RestClient.cs:42-46 | With a transport that always answers, the client's `Get()` always succeeds. It targets the endpoint itself with the default port cleared, appends the client's headers to the transport's without removing any, leaves the transport's body and content type as they were, and converts the transport's answer. |
| Clients.BareRequestUri | src/RestLib/RestClient.cs:42-46 | A request without resource name, identifier or parameters addresses the endpoint's own path, with the default port cleared. |
| Clients.GetTyped | src/RestLib/RestClient.cs:48-52 | Let `resp` be the transport's answer to the plain `Get()`. If it has no content, or a status other than 200 and 201, the data is the default. Otherwise a null content type throws `ArgumentNullException` and an unregistered one a null dereference. For a registered one, the result succeeds exactly when its handler deserializes the content, and then carries that data. On success it also returns the plain outcome and `resp`. |
| Clients.GetTypedRegistryNotConsulted | src/RestLib/RestResponseExtensions.cs:18-32 | Without content, or with a status other than 200 and 201, `Get<T>()` gives the same result for any two content-handler registries. |
| Clients.HeadersAreSnapshot | src/RestLib/RestClient.cs:54-72 | A request keeps the headers it was given. After a client `AddHeader`, a new request sees the added value, and a request created before does not. |
| NameValues.GetAfterAdd | src/RestLib/RestRequest.cs:83 | `Add` changes what the indexer reports for the added name alone. For that name it reports the earlier value, a comma, and the new value, or just the new one if there was none. |
| NameValues.AddWellFormed | src/RestLib/RestRequest.cs:83 | `Add` never creates a second entry for a key. |
| NameValues.CopyIntoExtends | src/RestLib/RestRequest.cs:105-108 | Adding all of a collection into another never removes a key or a value already there. |
| NameValues.GetAfterCopyInto | src/RestLib/RestRequest.cs:105-108 | After adding all of `src` into `dst`, every key reports its `dst` value followed by its `src` value. |
| NameValues.CopyIntoEmpty | src/RestLib/RestClient.cs:67-70 | Copying into an empty collection keeps the keys in order and the value reported under every key. |
| CsFileReaders.Classify | src/CombineCs/CsFileReader.cs:22-33 | A line is a `using` line exactly when it starts with `using `. It is dropped exactly when it does not, but starts with `namespace `, `{` or `}`. Matching is at column 0 only. |
| CsFileReaders.SelectMembers | src/CombineCs/CsFileReader.cs:20-34 | A line is in the selection of a kind exactly when it is in the file and has that kind. |
| CsFileReaders.SelectPartitions | src/CombineCs/CsFileReader.cs:20-34 | `using` lines, dropped lines and code lines add up to the file's line count: each line lands in exactly one group. |
| CsFileReaders.SplitLines | src/CombineCs/CsFileReader.cs:20-34 | The loop collects exactly the `using` lines and exactly the code lines, each in file order. |
| CsFileReaders.ReadFile | src/CombineCs/CsFileReader.cs:15-36 | It throws `ArgumentOutOfRangeException` exactly when the input has code lines and all of them are blank. Otherwise the source file keeps the name and `using` lines. It holds the code lines with leading blank lines trimmed. |
| CsFileReaders.ReadFiles | src/CombineCs/CsFileReader.cs:8-42 | It throws `ArgumentOutOfRangeException` exactly when some input has only blank code lines. Otherwise it returns one source file per input, in order, each read as `ReadFile` describes. |
| CsFileReaders.ReadFileKeepsCode | src/CombineCs/CsFileReader.cs:33-36 | When a file was read without throwing, every code line of it reaches the processed lines unless it is blank. |
| SourceFiles.NewSourceFile | src/CombineCs/SourceFile.cs:7-14 | The constructor throws `ArgumentOutOfRangeException` exactly when the code lines are non-empty and all blank. Otherwise the file name and `using` lines are stored unchanged. The processed lines are the code lines without a prefix of blank lines, and they are empty or start with a line that is not blank. |
| SourceFiles.TrimEmptyStartingLinesAsWritten | src/CombineCs/SourceFile.cs:16-25 | An empty list is returned unchanged. The loop throws `ArgumentOutOfRangeException` exactly when the list is non-empty and all blank. Otherwise it removes exactly the leading blank lines. |
| SourceFiles.DropWhileBlankAsWritten | src/CombineCs/SourceFile.cs:21-24 | The loop fails exactly on an all-blank list. Otherwise it stops at the first line that is not blank. |
| SourceFiles.BlankCodeLinesThrow | src/CombineCs/SourceFile.cs:21-24 | The code lines `[""]` and `["", " "]` make the constructor throw. |
| SourceFiles.TrimEmptyStartingLines | src/CombineCs/SourceFile.cs:16-25 | Removes a prefix of blank lines and keeps the rest in order. The result is empty or starts with a line that is not blank. |
| SourceFiles.TrimAgreesWhereDefined | src/CombineCs/SourceFile.cs:16-25 | Wherever the original does not throw, it gives the same lines as the corrected trim. Where it throws, the corrected trim gives no lines. |
| SourceFiles.TrimUnique | src/CombineCs/SourceFile.cs:21-24 | Only one list is the input without a blank prefix and empty or starting with a non-blank line. |
| SourceFiles.TrimIdempotent | src/CombineCs/SourceFile.cs:16-25 | Trimming twice removes nothing more. |
| SourceFiles.DroppedAreBlank | src/CombineCs/SourceFile.cs:21-24 | Every line the trim removes is blank. |
| FirstLineComparers.Compare | src/CombineCs/FirstLineComparer.cs:7-24 | The result is -1, 0 or 1. |
| FirstLineComparers.CompareByRank | src/CombineCs/FirstLineComparer.cs:12-23 | Between files with code, the result compares the groups of the first lines: enum, then interface, then anything else. A line with both words is an enum. |
| FirstLineComparers.EmptyComparesEqual | src/CombineCs/FirstLineComparer.cs:9-10 | A file without code lines compares equal to every file. |
| FirstLineComparers.CompareAntisymmetric | src/CombineCs/FirstLineComparer.cs:7-24 | Swapping the arguments negates the result, so every file compares equal to itself. |
| FirstLineComparers.CompareTransitive | src/CombineCs/FirstLineComparer.cs:12-23 | Among files with code the comparer is transitive. |
| FirstLineComparers.EmptyFileBreaksTransitivity | src/CombineCs/FirstLineComparer.cs:9-17 | With an empty file it is not: the empty file ties with an enum file and with a class file, but the enum file sorts before the class file. |
| CsFileWriters.SortDistinct | src/CombineCs/CsFileWriter.cs:13-17 | The `using` header is strictly ascending, so it has no duplicates, and it holds exactly the lines of the input. |
| CsFileWriters.SortedUnique | src/CombineCs/CsFileWriter.cs:13-17 | Two strictly ascending lists with the same members are equal, so the header is determined by the set of `using` lines. |
| CsFileWriters.AllNamespacesMembers | src/CombineCs/CsFileWriter.cs:14 | A line is among all files' `using` lines exactly when some file has it. |
| CsFileWriters.SortFiles | src/CombineCs/CsFileWriter.cs:29 | The sorted files are a permutation of the input. |
| CsFileWriters.Insert | src/CombineCs/CsFileWriter.cs:29 | Inserting a file adds exactly that file to the multiset of files. |
| CsFileWriters.SortFilesGroups | src/CombineCs/CsFileWriter.cs:29 | When every file has code, the sorted order is the enum files, then the interface files, then the rest, each group in input order. That is a stable sort by the comparer. |
| CsFileWriters.CombineAsLines | src/CombineCs/CsFileWriter.cs:11-38 | The built text is exactly the output lines, each ended by `\r\n`. Those lines are the header, an empty line, `namespace CombineCs`, `{`, each file's lines with an empty line before every file but the first, and `}`. With no files the braces share one line. |
| CsFileWriters.UsingsOfOutput | src/CombineCs/CsFileWriter.cs:13-22 | The output starts with the header. The header is strictly ascending and holds exactly the `using` lines that some file has. |
| CsFileWriters.CodeOfOutput | src/CombineCs/CsFileWriter.cs:29-37 | Every processed line of every file appears in the output. |
| CsFileWriters.BodyExactlyOnce | src/CombineCs/CsFileWriter.cs:29-38 | With at least one file, the body starts with `{` and ends with `}`. Between them, as a multiset, are every processed line of every file, as often as the files hold it, plus one empty line per file after the first, and nothing else. |
| CsFileWriters.AllCodeSort | src/CombineCs/CsFileWriter.cs:29 | Sorting the files keeps the multiset of their code lines. |

## Left out

- The transport (`Http`, `IHttp.Execute`, `HttpClient`) is left out. It is the function parameter `transport` from method and transport state to a response. Transport failures are not modelled: the transport always answers. `Http.Execute` throws `NotImplementedException` for methods other than GET and POST, and `HttpClient` can throw for network errors. Neither is represented. Only the settable state `ConfigureHttp` writes is modelled.
- The serializers and deserializers (Newtonsoft JSON, the .NET XML deserializer) are left out. They are the parameters `serialize` and `deserialize`. A handler is represented by its name.
- `Uri.EscapeDataString` is the parameter `escape`, and its character table is not modelled. `Uri` and `UriBuilder` parsing is not modelled either. A URI is a record of scheme, host, port, path and query. The model assumes endpoints whose path starts with `/`.
- Only `http` (80) and `https` (443) have default ports. Other schemes are treated as having none.
- Header names are never null here. The program's `NameValueCollection` accepts a null name as a key of its own, `BuildRequest` and `ConfigureHttp` copy it onward, and only the transport rejects it. Parameter names, by contrast, are `Option<string>`.
- The header collection folds case for ASCII letters only. The culture's case-insensitive comparer also folds other letters.
- `RestRequests.BuildUri`: the combined path is kept as the string given to the `UriBuilder.Path` setter. The setter's escaping, its conversion of `\` to `/` and its removal of dot segments are not modelled. For example, resource `a b` gives path `/a b` here, where the program gets `/a%20b`.
- `RestRequests.Get`: failures of the transport are not modelled, so `Get` and `Post` fail only when the URI does not build. `Get<T>()` and `Post<T>()` of the request are not written out separately. They compose `Get` and `Post` with `ToGenericResponse` in the same way as `Clients.GetTyped`.
- Object identity is not modelled. The Add methods return `this` for chaining; here they return the updated request. The response's header collection is aliased, not copied; here it is equal.
- Mutation in place is not modelled. `SourceFile` keeps the caller's list as `ProcessedLines` and trims it in place; here it holds the trimmed value.
- The legacy `RestRequest`, `ContentHandlerProvider` and `Http` declared again in `RestClient.cs` are not modelled, apart from its `ToGenericResponse<T>`. The client uses the standalone `RestRequest` and `ToGenericResponse<T>`.
- Process-wide statics (`RestClient.HttpFactory`, the settable `ContentHandlers`) are parameters, not globals.
- `UrlEncoding.UrlEncode`: Dafny's `char` is a Unicode scalar value, not a UTF-16 code unit. Chunks are therefore counted in `char`s. The surrogate-pair split is shown on a sequence of 16-bit code units instead.
- `Clients.Get`: failures of the transport are not modelled, so the client's `Get()` cannot fail here.
- `CsFileReaders.Classify`: the prefix tests are ordinal. `StartsWith(string)` compares by the current culture, which ignores some characters. For example, a line starting with a soft hyphen before `using ` counts as a `using` line there, but not here.
- `CsFileWriters.SortDistinct`: `OrderBy` on strings compares by the current culture. The model uses ordinal order on character codes.
- `CsFileWriters.UsingsOfOutput`: the header is ascending in ordinal order, as `SortDistinct` is. The program sorts by the current culture.
- `CsFileWriters.SortFiles`: with a file that has no code, the comparer is not transitive. The file order is then the model's insertion order, which `OrderBy`'s sort need not produce. For files `A`, an empty one and `public enum E`, the model puts the enum first.
- `CsFileWriters.CombineAsLines`: the file blocks follow `SortFiles`. With a file that has no code, the written text can therefore order the files differently from the program's.
- `CsFileWriters.SortFilesGroups`: `OrderBy` is characterised by group only when every file has code. With an empty file the comparer is not transitive, and only the permutation is claimed.
- Listing the directory, reading files, `Path.GetFileName` and writing `combined.cs` to its fixed path are file-system calls and are left out. A file arrives as its name and lines, and the combined text is returned.
- `Environment.NewLine` is fixed to `\r\n`, the value on the platform the tool targets.
- `Parameter` (src/RestLib/Parameter.cs:5-16) is the immutable datatype `Parameters.Parameter`. Its name, value and kind are the constructor's arguments. It has no member of its own to state anything about.

## Findings

| source | as written | input that shows it | evidently intended | confidence | as-written member | corrected member |
|---|---|---|---|---|---|---|
| src/CombineCs/SourceFile.cs:21-24 | The loop removes `ProcessedLines[0]` while it is blank and indexes `[0]` again without checking the count. A non-empty list of blank lines therefore throws `ArgumentOutOfRangeException` once it is empty. | a `.cs` file whose only code lines are blank, e.g. code lines `[""]` | Remove the leading blank lines, leaving an empty list when all are blank | not executed | SourceFiles.TrimEmptyStartingLinesAsWritten (shown by SourceFiles.BlankCodeLinesThrow). `SourceFiles.NewSourceFile` and `CsFileReaders.ReadFile` keep the throw. | SourceFiles.TrimEmptyStartingLines (related by SourceFiles.TrimAgreesWhereDefined). It gives the processed lines whenever the constructor does not throw. |
