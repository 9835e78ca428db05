/** `RestRequest`: accumulates headers and parameters for one resource of
    one endpoint, builds the request URI and drives the shared transport.

    The transport (`IHttp`) is split in two: its settable state, which the
    request writes before each call and which is shared by every request of
    one client, is `HttpState`; its `Execute` is the function parameter
    `transport`. `Uri.EscapeDataString` is the parameter `escape` and the
    JSON serializer's `Serialize` the parameter `serialize`. */
module RestRequests {
  import opened Wrappers
  import opened Text
  import opened NameValues
  import opened Uris
  import opened Parameters
  import opened UrlEncoding
  import opened Responses

  const QueryStringParameterDelimiter: char := '&'
  const MatrixParameterDelimiter: char := ';'
  const OmitEmptyParameters: bool := true

  /** `NewtonsoftJsonSerializer.ContentType` as constructed. */
  const JsonContentType: string := "application/json"

  datatype Method = GET | POST

  /** The request's `ISerializer`; only its settable content type is state. */
  datatype Serializer = Serializer(contentType: Option<string>)

  datatype RestRequest = RestRequest(
    endpoint: Uri,
    resourceName: Option<string>,
    headers: Collection,
    parameters: seq<Parameter>,
    jsonSerializer: Serializer)

  /** The settable part of `IHttp`. */
  datatype HttpState = HttpState(
    url: Option<Uri>,
    headers: Collection,
    requestBody: Option<string>,
    requestContentType: Option<string>)

  /** `IHttp.Execute`: sends what the state describes, returns the response. */
  type Transport = (Method, HttpState) -> HttpResponse

  /** What one call leaves behind: the request (whose parameters `Post`
      extends), the shared transport state, and the response. */
  datatype Outcome = Outcome(request: RestRequest, http: HttpState, response: RestResponse)

  /** `new RestRequest(endPoint, resourceName, http)`. */
  function NewRequest(endpoint: Uri, resourceName: Option<string>): RestRequest {
    RestRequest(endpoint, resourceName, [], [], Serializer(Some(JsonContentType)))
  }

  // ---------------------------------------------------------------------
  // Path joining

  /** `r` is `a` without its trailing separators, one `/`, then `b` without
      its leading separators. */
  ghost predicate JoinedAtOneSeparator(a: string, b: string, r: string) {
    exists n1, n2 ::
      && 0 <= n1 <= |a| && 0 <= n2 <= |b|
      && r == a[..n1] + "/" + b[n2..]
      && (forall i :: n1 <= i < |a| ==> a[i] in PathSeparators)
      && (n1 == 0 || a[n1 - 1] !in PathSeparators)
      && (forall i :: 0 <= i < n2 ==> b[i] in PathSeparators)
      && (n2 == |b| || b[n2] !in PathSeparators)
  }

  /** `PathCombine(path1, path2)`. */
  function PathCombine(path1: Option<string>, path2: Option<string>): (r: Option<string>)
    ensures IsNullOrWhiteSpace(path1) ==> r == path2
    ensures !IsNullOrWhiteSpace(path1) && IsNullOrWhiteSpace(path2) ==> r == path1
    ensures !IsNullOrWhiteSpace(path1) ==> !IsNullOrWhiteSpace(r)
    ensures !IsNullOrWhiteSpace(path1) && !IsNullOrWhiteSpace(path2) ==>
              JoinedAtOneSeparator(path1.value, path2.value, r.value)
  {
    if IsNullOrWhiteSpace(path1) then path2
    else if IsNullOrWhiteSpace(path2) then path1
    else
      TrimmedJoin(path1.value, path2.value);
      Some(TrimEnd(path1.value, PathSeparators) + "/" + TrimStart(path2.value, PathSeparators))
  }

  /** The trimmed halves joined at a `/` are joined at one separator, and
      not blank because of that `/`. */
  lemma TrimmedJoin(p1: string, p2: string)
    ensures var r := TrimEnd(p1, PathSeparators) + "/" + TrimStart(p2, PathSeparators);
            JoinedAtOneSeparator(p1, p2, r) && !IsBlank(r)
  {
    var a := TrimEnd(p1, PathSeparators);
    var b := TrimStart(p2, PathSeparators);
    TrimmedJoinWitness(p1, p2, |a|, |p2| - |b|);
    SlashNotBlank(a, b);
  }

  lemma TrimmedJoinWitness(p1: string, p2: string, n1: nat, n2: nat)
    requires n1 == |TrimEnd(p1, PathSeparators)| && n2 == |p2| - |TrimStart(p2, PathSeparators)|
    ensures JoinedAtOneSeparator(p1, p2, TrimEnd(p1, PathSeparators) + "/" + TrimStart(p2, PathSeparators))
  {
    var a := TrimEnd(p1, PathSeparators);
    var b := TrimStart(p2, PathSeparators);
    assert a == p1[..n1] && b == p2[n2..];
    assert n1 == 0 || p1[n1 - 1] !in PathSeparators by {
      if n1 > 0 { assert p1[n1 - 1] == a[|a| - 1]; }
    }
    assert n2 == |p2| || p2[n2] !in PathSeparators by {
      if n2 < |p2| { assert p2[n2] == b[0]; }
    }
  }

  lemma SlashNotBlank(a: string, b: string)
    ensures !IsBlank(a + "/" + b)
  {
    assert (a + "/" + b)[|a|] == '/';
  }

  // ---------------------------------------------------------------------
  // Parameters in the URI

  /** The `Where` filter of `BuildUri`: the right kind, and (with empty
      parameters omitted) a value that is not null, empty or white space. */
  predicate Renders(p: Parameter, kind: ParameterType) {
    p.kind == kind && (!OmitEmptyParameters || !IsNullOrWhiteSpace(p.value))
  }

  /** The parameters of `kind` that reach the URI, in insertion order. */
  function Kept(ps: seq<Parameter>, kind: ParameterType): (r: seq<Parameter>)
    ensures forall i :: 0 <= i < |r| ==> r[i].kind == kind && !IsNullOrWhiteSpace(r[i].value)
    decreases |ps|
  {
    if |ps| == 0 then []
    else Kept(ps[..|ps| - 1], kind) + (if Renders(ps[|ps| - 1], kind) then [ps[|ps| - 1]] else [])
  }

  /** `EncodeParameter(parameter)`. */
  function EncodeParameter(p: Parameter, escape: string -> string): Result<string> {
    var name :- UrlEncode(p.name, escape);
    if p.value.None? then Success(name + "=")
    else Success(name + "=" + UrlEncode(p.value, escape).value)
  }

  /** `parameters.Select(EncodeParameter).ToArray()`: the first failure wins. */
  function EncodeAll(ps: seq<Parameter>, escape: string -> string): Result<seq<string>>
    decreases |ps|
  {
    if |ps| == 0 then Success([])
    else
      var first :- EncodeParameter(ps[0], escape);
      var rest :- EncodeAll(ps[1..], escape);
      Success([first] + rest)
  }

  /** `EncodeParameters(parameters, delimiter)`. */
  function EncodeParameters(ps: seq<Parameter>, delimiter: char, escape: string -> string): Result<string> {
    var pieces :- EncodeAll(ps, escape);
    Success(Join(pieces, [delimiter]))
  }

  /** Every parameter has a name, so encoding it cannot throw. */
  predicate NamesPresent(ps: seq<Parameter>) {
    forall i :: 0 <= i < |ps| ==> ps[i].name.Some?
  }

  /** How a parameter that survived the filter appears in the URI: its
      encoded name, `=`, its encoded value. There is no null-value form:
      no value that survives the filter is null. */
  function Pair(p: Parameter, escape: string -> string): string
    requires p.name.Some? && p.value.Some?
  {
    UrlEncode(p.name, escape).value + "=" + UrlEncode(p.value, escape).value
  }

  /** The pairs of the parameters that survived the filter. */
  function Pairs(ps: seq<Parameter>, escape: string -> string): (r: seq<string>)
    requires NamesPresent(ps)
    requires forall i :: 0 <= i < |ps| ==> ps[i].value.Some?
    ensures |r| == |ps|
    ensures forall i :: 0 <= i < |ps| ==> r[i] == Pair(ps[i], escape)
  {
    seq(|ps|, i requires 0 <= i < |ps| => Pair(ps[i], escape))
  }

  /** The filter keeps every parameter of the kind whose value is not
      blank, and nothing that was not added. */
  lemma {:induction false} KeptExactly(ps: seq<Parameter>, kind: ParameterType)
    ensures forall p :: p in ps && p.kind == kind && !IsNullOrWhiteSpace(p.value) ==> p in Kept(ps, kind)
    ensures forall p :: p in Kept(ps, kind) ==> p in ps
    decreases |ps|
  {
    if |ps| > 0 {
      var init := ps[..|ps| - 1];
      KeptExactly(init, kind);
      assert ps == init + [ps[|ps| - 1]];
    }
  }

  lemma {:induction false} EncodeAllSucceeds(ps: seq<Parameter>, escape: string -> string)
    requires NamesPresent(ps)
    requires forall i :: 0 <= i < |ps| ==> ps[i].value.Some?
    ensures EncodeAll(ps, escape) == Success(Pairs(ps, escape))
    decreases |ps|
  {
    if |ps| > 0 {
      PairsCons(ps, escape);
      EncodeAllSucceeds(ps[1..], escape);
      EncodeParameterPair(ps[0], escape);
    }
  }

  /** The pairs of a non-empty list: the first pair, then the rest's. */
  lemma PairsCons(ps: seq<Parameter>, escape: string -> string)
    requires |ps| > 0 && NamesPresent(ps)
    requires forall i :: 0 <= i < |ps| ==> ps[i].value.Some?
    ensures NamesPresent(ps[1..]) && forall i :: 0 <= i < |ps[1..]| ==> ps[1..][i].value.Some?
    ensures Pairs(ps, escape) == [Pair(ps[0], escape)] + Pairs(ps[1..], escape)
  {
    var rest := ps[1..];
    assert forall i :: 0 <= i < |rest| ==> rest[i] == ps[i + 1];
  }

  lemma EncodeParameterPair(p: Parameter, escape: string -> string)
    requires p.name.Some? && p.value.Some?
    ensures EncodeParameter(p, escape) == Success(Pair(p, escape))
  {
  }

  lemma {:induction false} EncodeAllFails(ps: seq<Parameter>, escape: string -> string)
    requires !NamesPresent(ps)
    ensures EncodeAll(ps, escape) == Failure(ArgumentNull("input"))
    decreases |ps|
  {
    if ps[0].name.Some? {
      EncodeAllFails(ps[1..], escape);
    }
  }

  /** Encoding the surviving parameters fails exactly when one has a null
      name, and otherwise gives their pairs. */
  lemma EncodeAllOutcome(ps: seq<Parameter>, escape: string -> string)
    requires forall i :: 0 <= i < |ps| ==> ps[i].value.Some?
    ensures NamesPresent(ps) ==> EncodeAll(ps, escape) == Success(Pairs(ps, escape))
    ensures !NamesPresent(ps) ==> EncodeAll(ps, escape) == Failure(ArgumentNull("input"))
  {
    if NamesPresent(ps) {
      EncodeAllSucceeds(ps, escape);
    } else {
      EncodeAllFails(ps, escape);
    }
  }

  /** Every parameter that reaches the URI has a name, so `BuildUri` does
      not throw. */
  predicate Buildable(ps: seq<Parameter>) {
    NamesPresent(Kept(ps, QueryString)) && NamesPresent(Kept(ps, Matrix))
  }

  /** The URI path before matrix parameters: endpoint path, resource name,
      identifier, joined by `PathCombine`. */
  function CombinedPath(req: RestRequest, id: Option<string>): (path: string)
    requires Valid(req.endpoint)
    ensures !IsBlank(path)
  {
    assert !IsWhiteSpace(req.endpoint.path[0]);
    PathCombine(PathCombine(Some(req.endpoint.path), req.resourceName), id).value
  }

  /** `BuildUri(resourceIdentifier)`. */
  function BuildUri(req: RestRequest, id: Option<string>, escape: string -> string): (r: Result<Uri>)
    requires Valid(req.endpoint)
    ensures r.Success? <==> Buildable(req.parameters)
    ensures r.Failure? ==> r.error == ArgumentNull("input")
    ensures r.Success? ==>
              && r.value.scheme == req.endpoint.scheme
              && r.value.host == req.endpoint.host
              && r.value.port == (if IsDefaultPort(req.endpoint) then -1 else req.endpoint.port)
    ensures r.Success? ==>
              var qs := Kept(req.parameters, QueryString);
              r.value.query == if |qs| == 0 then req.endpoint.query
                               else Join(Pairs(qs, escape), [QueryStringParameterDelimiter])
    ensures r.Success? ==>
              var ms := Kept(req.parameters, Matrix);
              r.value.path == if |ms| == 0 then CombinedPath(req, id)
                              else CombinedPath(req, id) + [MatrixParameterDelimiter]
                                   + Join(Pairs(ms, escape), [MatrixParameterDelimiter])
  {
    var ep := req.endpoint;
    var path := CombinedPath(req, id);
    // Don't include the default port in the URI.
    var port := if IsDefaultPort(ep) then -1 else ep.port;
    var qs := Kept(req.parameters, QueryString);
    EncodeAllOutcome(qs, escape);
    var query :- if |qs| > 0 then EncodeParameters(qs, QueryStringParameterDelimiter, escape)
                 else Success(ep.query);
    var ms := Kept(req.parameters, Matrix);
    EncodeAllOutcome(ms, escape);
    var fullPath :- if |ms| > 0 then
                      var encoded :- EncodeParameters(ms, MatrixParameterDelimiter, escape);
                      Success(path + [MatrixParameterDelimiter] + encoded)
                    else Success(path);
    Success(Uri(ep.scheme, ep.host, port, fullPath, query))
  }

  /** The rendered query can be taken apart again: split at `&` it gives one
      piece per surviving parameter, and each piece split at `=` gives the
      encoded name and value, provided the encoding never emits `&` or `=`. */
  lemma QueryRoundTrip(req: RestRequest, id: Option<string>, escape: string -> string)
    requires Valid(req.endpoint)
    requires Avoids(escape, '&') && Avoids(escape, '=')
    requires Buildable(req.parameters)
    requires |Kept(req.parameters, QueryString)| > 0
    ensures var qs := Kept(req.parameters, QueryString);
            var pieces := Split(BuildUri(req, id, escape).value.query, '&');
            && |pieces| == |qs|
            && forall i :: 0 <= i < |qs| ==>
                 Split(pieces[i], '=') == [UrlEncode(qs[i].name, escape).value, UrlEncode(qs[i].value, escape).value]
  {
    var qs := Kept(req.parameters, QueryString);
    KeptExactly(req.parameters, QueryString);
    var pairs := Pairs(qs, escape);
    forall i | 0 <= i < |qs|
      ensures '&' !in pairs[i]
      ensures Split(pairs[i], '=') == [UrlEncode(qs[i].name, escape).value, UrlEncode(qs[i].value, escape).value]
    {
      PairSplits(qs[i], escape);
    }
    SplitJoin(pairs, '&');
  }

  /** One rendered pair holds no `&`, and splits at `=` into the encoded
      name and value. */
  lemma PairSplits(p: Parameter, escape: string -> string)
    requires p.name.Some? && p.value.Some?
    requires Avoids(escape, '&') && Avoids(escape, '=')
    ensures var n := UrlEncode(p.name, escape).value;
            var v := UrlEncode(p.value, escape).value;
            && '&' !in n + "=" + v
            && Split(n + "=" + v, '=') == [n, v]
  {
    var n := UrlEncode(p.name, escape).value;
    var v := UrlEncode(p.value, escape).value;
    UrlEncodeAvoids(p.name.value, escape, '&');
    UrlEncodeAvoids(p.value.value, escape, '&');
    UrlEncodeAvoids(p.name.value, escape, '=');
    UrlEncodeAvoids(p.value.value, escape, '=');
    SplitFirstPiece(n, '=', v);
    SplitNoDelimiter(v, '=');
  }

  /** The URI depends on the parameters only through those that survive
      the filter. */
  lemma BuildUriDependsOnlyOnKept(req1: RestRequest, req2: RestRequest, id: Option<string>, escape: string -> string)
    requires Valid(req1.endpoint)
    requires req1.endpoint == req2.endpoint && req1.resourceName == req2.resourceName
    requires Kept(req1.parameters, QueryString) == Kept(req2.parameters, QueryString)
    requires Kept(req1.parameters, Matrix) == Kept(req2.parameters, Matrix)
    ensures BuildUri(req1, id, escape) == BuildUri(req2, id, escape)
  {
    assert CombinedPath(req1, id) == CombinedPath(req2, id);
    var r1 := BuildUri(req1, id, escape);
    var r2 := BuildUri(req2, id, escape);
    if r1.Success? {
      assert r1.value.query == r2.value.query && r1.value.path == r2.value.path;
    }
  }

  /** Appending one parameter adds it to the surviving ones of its kind
      exactly when it renders. */
  lemma KeptAppend(ps: seq<Parameter>, p: Parameter, kind: ParameterType)
    ensures Kept(ps + [p], kind) == Kept(ps, kind) + (if Renders(p, kind) then [p] else [])
  {
    assert (ps + [p])[..|ps|] == ps;
  }

  /** Parameters of the body kind never reach the URI. */
  lemma BuildUriIgnoresBody(req: RestRequest, id: Option<string>, p: Parameter, escape: string -> string)
    requires Valid(req.endpoint)
    requires p.kind == RequestBody
    ensures BuildUri(req.(parameters := req.parameters + [p]), id, escape) == BuildUri(req, id, escape)
  {
    KeptAppend(req.parameters, p, QueryString);
    KeptAppend(req.parameters, p, Matrix);
    BuildUriDependsOnlyOnKept(req.(parameters := req.parameters + [p]), req, id, escape);
  }

  // ---------------------------------------------------------------------
  // The fluent add-operations

  /** `AddQueryParameter(name, value)`. */
  function AddQueryParameter(req: RestRequest, name: Option<string>, value: Option<string>): (r: RestRequest)
    ensures r.parameters == req.parameters + [Parameter(name, value, QueryString)]
    ensures r.(parameters := req.parameters) == req
  {
    req.(parameters := req.parameters + [Parameter(name, value, QueryString)])
  }

  /** `AddMatrixParameter(name, value)`. */
  function AddMatrixParameter(req: RestRequest, name: Option<string>, value: Option<string>): (r: RestRequest)
    ensures r.parameters == req.parameters + [Parameter(name, value, Matrix)]
    ensures r.(parameters := req.parameters) == req
  {
    req.(parameters := req.parameters + [Parameter(name, value, Matrix)])
  }

  /** `AddHeader(name, value)`. */
  function AddHeader(req: RestRequest, name: string, value: Option<string>): (r: RestRequest)
    ensures r.(headers := req.headers) == req
    ensures Extends(req.headers, r.headers)
    ensures WellFormed(req.headers) ==> WellFormed(r.headers)
    ensures forall k :: NameValues.Get(r.headers, k) == if SameKey(k, name) then Appended(NameValues.Get(req.headers, k), value)
                                             else NameValues.Get(req.headers, k)
  {
    var r := req.(headers := Add(req.headers, name, value));
    AddExtends(req.headers, name, value);
    AddWellFormed(req.headers, name, value);
    forall k ensures NameValues.Get(r.headers, k) == if SameKey(k, name) then Appended(NameValues.Get(req.headers, k), value)
                                          else NameValues.Get(req.headers, k)
    {
      GetAfterAdd(req.headers, name, value, k);
    }
    r
  }

  /** Adding a parameter of one kind leaves the part of the URI that
      parameters of the other kind render unchanged. */
  lemma AddParameterKeepsOtherPart(req: RestRequest, id: Option<string>, p: Parameter, escape: string -> string)
    requires Valid(req.endpoint)
    requires Buildable(req.parameters)
    requires p.name.Some?
    ensures var r := BuildUri(req.(parameters := req.parameters + [p]), id, escape);
            var before := BuildUri(req, id, escape).value;
            && r.Success?
            && (p.kind != QueryString ==> r.value.query == before.query)
            && (p.kind != Matrix ==> r.value.path == before.path)
  {
    var req2 := req.(parameters := req.parameters + [p]);
    AddParameterSucceeds(req, id, p, escape);
    if p.kind != QueryString {
      KeptAppend(req.parameters, p, QueryString);
      assert Kept(req2.parameters, QueryString) == Kept(req.parameters, QueryString);
    }
    if p.kind != Matrix {
      AddParameterKeepsPath(req, id, p, escape);
    }
  }

  lemma AddParameterSucceeds(req: RestRequest, id: Option<string>, p: Parameter, escape: string -> string)
    requires Valid(req.endpoint)
    requires Buildable(req.parameters)
    requires p.name.Some?
    ensures BuildUri(req.(parameters := req.parameters + [p]), id, escape).Success?
  {
    var req2 := req.(parameters := req.parameters + [p]);
    KeptNamesAfterAppend(req.parameters, p, QueryString);
    KeptNamesAfterAppend(req.parameters, p, Matrix);
    assert NamesPresent(Kept(req2.parameters, QueryString)) && NamesPresent(Kept(req2.parameters, Matrix));
  }

  lemma KeptNamesAfterAppend(ps: seq<Parameter>, p: Parameter, kind: ParameterType)
    requires NamesPresent(Kept(ps, kind)) && p.name.Some?
    ensures NamesPresent(Kept(ps + [p], kind))
  {
    KeptAppend(ps, p, kind);
    var k := Kept(ps, kind);
    assert forall i :: 0 <= i < |k + [p]| ==> (k + [p])[i] == if i < |k| then k[i] else p;
  }

  lemma AddParameterKeepsPath(req: RestRequest, id: Option<string>, p: Parameter, escape: string -> string)
    requires Valid(req.endpoint)
    requires Buildable(req.parameters)
    requires p.name.Some? && p.kind != Matrix
    ensures var r := BuildUri(req.(parameters := req.parameters + [p]), id, escape);
            r.Success? && r.value.path == BuildUri(req, id, escape).value.path
  {
    var req2 := req.(parameters := req.parameters + [p]);
    AddParameterSucceeds(req, id, p, escape);
    KeptAppend(req.parameters, p, Matrix);
    assert Kept(req2.parameters, Matrix) == Kept(req.parameters, Matrix);
    assert CombinedPath(req2, id) == CombinedPath(req, id);
  }

  /** A query parameter with a blank value leaves the URI as it was; any
      other one adds its pair at the end of the query, after a `&` unless it
      is the first. */
  lemma AddQueryParameterEffect(req: RestRequest, id: Option<string>, name: string, value: Option<string>, escape: string -> string)
    requires Valid(req.endpoint)
    requires Buildable(req.parameters)
    ensures var r := BuildUri(AddQueryParameter(req, Some(name), value), id, escape);
            var before := BuildUri(req, id, escape).value;
            && r.Success?
            && (IsNullOrWhiteSpace(value) ==> r.value == before)
            && (!IsNullOrWhiteSpace(value) ==>
                  var pair := UrlEncode(Some(name), escape).value + "=" + UrlEncode(value, escape).value;
                  && r.value.path == before.path
                  && r.value.query == if |Kept(req.parameters, QueryString)| == 0 then pair
                                      else before.query + "&" + pair)
  {
    var p := Parameter(Some(name), value, QueryString);
    AddParameterSucceeds(req, id, p, escape);
    if IsNullOrWhiteSpace(value) {
      AddBlankParameterIgnored(req, id, p, escape);
    } else {
      AddQueryPairEffect(req, id, p, escape);
    }
  }

  /** A parameter of a kind the URI renders but with a blank value is
      filtered out, so the URI does not change. */
  lemma AddBlankParameterIgnored(req: RestRequest, id: Option<string>, p: Parameter, escape: string -> string)
    requires Valid(req.endpoint) && Buildable(req.parameters)
    requires IsNullOrWhiteSpace(p.value)
    ensures BuildUri(req.(parameters := req.parameters + [p]), id, escape) == BuildUri(req, id, escape)
  {
    var req2 := req.(parameters := req.parameters + [p]);
    KeptAppend(req.parameters, p, QueryString);
    KeptAppend(req.parameters, p, Matrix);
    BuildUriDependsOnlyOnKept(req2, req, id, escape);
  }

  lemma AddQueryPairEffect(req: RestRequest, id: Option<string>, p: Parameter, escape: string -> string)
    requires Valid(req.endpoint) && Buildable(req.parameters)
    requires p.name.Some? && p.kind == QueryString && !IsNullOrWhiteSpace(p.value)
    ensures var r := BuildUri(req.(parameters := req.parameters + [p]), id, escape);
            var before := BuildUri(req, id, escape).value;
            var pair := UrlEncode(p.name, escape).value + "=" + UrlEncode(p.value, escape).value;
            && r.Success?
            && r.value.path == before.path
            && r.value.query == if |Kept(req.parameters, QueryString)| == 0 then pair
                                else before.query + "&" + pair
  {
    AddParameterKeepsOtherPart(req, id, p, escape);
    KeptAppend(req.parameters, p, QueryString);
    PairsAppendJoin(Kept(req.parameters, QueryString), p, escape, '&');
  }

  /** A matrix parameter with a blank value leaves the URI as it was; any
      other one adds `;` and its pair at the end of the path. */
  lemma AddMatrixParameterEffect(req: RestRequest, id: Option<string>, name: string, value: Option<string>, escape: string -> string)
    requires Valid(req.endpoint)
    requires Buildable(req.parameters)
    ensures var r := BuildUri(AddMatrixParameter(req, Some(name), value), id, escape);
            var before := BuildUri(req, id, escape).value;
            && r.Success?
            && (IsNullOrWhiteSpace(value) ==> r.value == before)
            && (!IsNullOrWhiteSpace(value) ==>
                  && r.value.query == before.query
                  && r.value.path == before.path + ";" + UrlEncode(Some(name), escape).value + "="
                                     + UrlEncode(value, escape).value)
  {
    var p := Parameter(Some(name), value, Matrix);
    AddParameterSucceeds(req, id, p, escape);
    if IsNullOrWhiteSpace(value) {
      AddBlankParameterIgnored(req, id, p, escape);
    } else {
      AddMatrixPairEffect(req, id, p, escape);
    }
  }

  lemma AddMatrixPairEffect(req: RestRequest, id: Option<string>, p: Parameter, escape: string -> string)
    requires Valid(req.endpoint) && Buildable(req.parameters)
    requires p.name.Some? && p.kind == Matrix && !IsNullOrWhiteSpace(p.value)
    ensures var r := BuildUri(req.(parameters := req.parameters + [p]), id, escape);
            var before := BuildUri(req, id, escape).value;
            && r.Success?
            && r.value.query == before.query
            && r.value.path == before.path + ";" + UrlEncode(p.name, escape).value + "="
                               + UrlEncode(p.value, escape).value
  {
    var req2 := req.(parameters := req.parameters + [p]);
    AddParameterKeepsOtherPart(req, id, p, escape);
    KeptAppend(req.parameters, p, Matrix);
    var ms := Kept(req.parameters, Matrix);
    PairsAppendJoin(ms, p, escape, ';');
    var base := CombinedPath(req, id);
    assert CombinedPath(req2, id) == base;
    var n := UrlEncode(p.name, escape).value;
    var v := UrlEncode(p.value, escape).value;
    AppendPairToPath(base, Pairs(ms, escape), n, v);
  }

  lemma {:induction false} AppendPairToPath(base: string, pairs: seq<string>, n: string, v: string)
    ensures var before := if |pairs| == 0 then base else base + ";" + Join(pairs, ";");
            base + ";" + Join(pairs + [n + "=" + v], ";") == before + ";" + n + "=" + v
  {
    var x := n + "=" + v;
    var d := ";";
    if |pairs| > 0 {
      var j := Join(pairs, d);
      JoinAppendPiece(pairs, x, ';');
      assert Join(pairs + [x], d) == j + d + x;
      assert base + d + (j + d + x) == (base + d + j) + d + x;
      assert (base + d + j) + d + x == (base + d + j) + d + n + "=" + v;
    } else {
      assert Join([x], d) == x;
      assert base + d + x == base + d + n + "=" + v;
    }
  }

  /** Rendering one more surviving parameter appends its pair, after the
      delimiter unless it is the first. */
  lemma PairsAppendJoin(ps: seq<Parameter>, p: Parameter, escape: string -> string, d: char)
    requires NamesPresent(ps) && forall i :: 0 <= i < |ps| ==> ps[i].value.Some?
    requires p.name.Some? && p.value.Some?
    ensures NamesPresent(ps + [p])
    ensures Pairs(ps + [p], escape) == Pairs(ps, escape) + [Pair(p, escape)]
    ensures Join(Pairs(ps + [p], escape), [d])
         == if |ps| == 0 then Pair(p, escape) else Join(Pairs(ps, escape), [d]) + [d] + Pair(p, escape)
  {
    assert Pairs(ps + [p], escape) == Pairs(ps, escape) + [Pair(p, escape)];
    if |ps| > 0 {
      JoinAppendPiece(Pairs(ps, escape), Pair(p, escape), d);
    }
  }

  lemma {:induction false} JoinAppendPiece(parts: seq<string>, x: string, d: char)
    requires |parts| > 0
    ensures Join(parts + [x], [d]) == Join(parts, [d]) + [d] + x
    decreases |parts|
  {
    if |parts| == 1 {
      assert (parts + [x])[1..] == [x];
    } else {
      assert (parts + [x])[1..] == parts[1..] + [x];
      JoinAppendPiece(parts[1..], x, d);
      assert Join(parts + [x], [d]) == parts[0] + [d] + (Join(parts[1..], [d]) + [d] + x);
    }
  }

  // ---------------------------------------------------------------------
  // Executing

  /** `Parameters.FirstOrDefault(p => p.Type == ParameterType.RequestBody)`. */
  function FirstBody(ps: seq<Parameter>): (r: Option<Parameter>)
    ensures r.None? <==> forall i :: 0 <= i < |ps| ==> ps[i].kind != RequestBody
    ensures r.Some? ==> exists i :: 0 <= i < |ps| && ps[i] == r.value && ps[i].kind == RequestBody
                          && forall j :: 0 <= j < i ==> ps[j].kind != RequestBody
    decreases |ps|
  {
    if |ps| == 0 then None
    else if ps[0].kind == RequestBody then Some(ps[0])
    else
      var r := FirstBody(ps[1..]);
      if r.Some? then
        var i :| 0 <= i < |ps[1..]| && ps[1..][i] == r.value && ps[1..][i].kind == RequestBody
                 && forall j :: 0 <= j < i ==> ps[1..][j].kind != RequestBody;
        assert ps[i + 1] == r.value;
        r
      else r
  }

  /** `ConfigureHttp(uri)`: points the shared transport at `uri`, adds the
      request's headers to its collection, and hands it the first body
      parameter, if any. */
  function ConfigureHttp(req: RestRequest, http: HttpState, uri: Uri): (h: HttpState)
    ensures h.url == Some(uri)
    ensures Extends(http.headers, h.headers)
    ensures WellFormed(req.headers) ==>
              forall k :: NameValues.Get(h.headers, k)
                       == Appended(NameValues.Get(http.headers, k), NameValues.Get(req.headers, k))
    ensures FirstBody(req.parameters).None? ==>
              h.requestBody == http.requestBody && h.requestContentType == http.requestContentType
    ensures FirstBody(req.parameters).Some? ==>
              h.requestBody == FirstBody(req.parameters).value.value
              && h.requestContentType == FirstBody(req.parameters).value.name
  {
    CopyIntoExtends(http.headers, req.headers);
    CopyIntoAppends(http.headers, req.headers);
    var configured := http.(url := Some(uri), headers := CopyInto(http.headers, req.headers));
    var body := FirstBody(req.parameters);
    if body.Some? then configured.(requestBody := body.value.value, requestContentType := body.value.name)
    else configured
  }

  /** `Execute(uri, method)`. */
  function Execute(req: RestRequest, http: HttpState, uri: Uri, verb: Method, transport: Transport): Outcome {
    var configured := ConfigureHttp(req, http, uri);
    Outcome(req, configured, ToRestResponse(transport(verb, configured)))
  }

  /** `Get()` (with `id` null) and `Get(id)`: a GET of the built URI. */
  function Get(req: RestRequest, http: HttpState, id: Option<string>, escape: string -> string, transport: Transport): (r: Result<Outcome>)
    requires Valid(req.endpoint)
    ensures r.Success? <==> Buildable(req.parameters)
    ensures r.Success? ==>
              && r.value.request == req
              && r.value.http.url == Some(BuildUri(req, id, escape).value)
              && Extends(http.headers, r.value.http.headers)
              && (WellFormed(req.headers) ==>
                    forall k :: NameValues.Get(r.value.http.headers, k)
                             == Appended(NameValues.Get(http.headers, k), NameValues.Get(req.headers, k)))
              && (FirstBody(req.parameters).None? ==>
                    r.value.http.requestBody == http.requestBody
                    && r.value.http.requestContentType == http.requestContentType)
              && (FirstBody(req.parameters).Some? ==>
                    r.value.http.requestBody == FirstBody(req.parameters).value.value
                    && r.value.http.requestContentType == FirstBody(req.parameters).value.name)
              && r.value.response == ToRestResponse(transport(GET, r.value.http))
  {
    var uri :- BuildUri(req, id, escape);
    Success(Execute(req, http, uri, GET, transport))
  }

  /** `Post(obj)`: builds the URI first, then appends one body parameter
      named by the serializer's content type, then POSTs. */
  function Post<O>(req: RestRequest, http: HttpState, obj: O, serialize: O -> string,
                   escape: string -> string, transport: Transport): (r: Result<Outcome>)
    requires Valid(req.endpoint)
    ensures r.Success? <==> Buildable(req.parameters)
    ensures r.Success? ==>
              && r.value.request == req.(parameters := req.parameters
                   + [Parameter(req.jsonSerializer.contentType, Some(serialize(obj)), RequestBody)])
              && r.value.http.url == Some(BuildUri(req, None, escape).value)
              && FirstBody(r.value.request.parameters).Some?
              && r.value.http.requestBody == FirstBody(r.value.request.parameters).value.value
              && r.value.http.requestContentType == FirstBody(r.value.request.parameters).value.name
              && Extends(http.headers, r.value.http.headers)
              && (WellFormed(req.headers) ==>
                    forall k :: NameValues.Get(r.value.http.headers, k)
                             == Appended(NameValues.Get(http.headers, k), NameValues.Get(req.headers, k)))
              && r.value.response == ToRestResponse(transport(POST, r.value.http))
  {
    var uri :- BuildUri(req, None, escape);
    var body := serialize(obj);
    var withBody := req.(parameters := req.parameters + [Parameter(req.jsonSerializer.contentType, Some(body), RequestBody)]);
    assert withBody.parameters[|req.parameters|].kind == RequestBody;
    Success(Execute(withBody, http, uri, POST, transport))
  }

  /** `Post(obj)` on a request with no body yet sends `obj`; a second `Post`
      on the same request sends the first body again. */
  lemma SecondPostResendsFirstBody<O>(req: RestRequest, http: HttpState, obj1: O, obj2: O,
                                      serialize: O -> string, escape: string -> string, transport: Transport)
    requires Valid(req.endpoint)
    requires forall i :: 0 <= i < |req.parameters| ==> req.parameters[i].kind != RequestBody
    requires Buildable(req.parameters)
    ensures var first := Post(req, http, obj1, serialize, escape, transport);
            && first.Success?
            && first.value.http.requestBody == Some(serialize(obj1))
            && first.value.http.requestContentType == req.jsonSerializer.contentType
            && var second := Post(first.value.request, first.value.http, obj2, serialize, escape, transport);
               && second.Success?
               && |second.value.request.parameters| == |req.parameters| + 2
               && second.value.http.requestBody == Some(serialize(obj1))
               && second.value.http.requestContentType == req.jsonSerializer.contentType
  {
    var body1 := Parameter(req.jsonSerializer.contentType, Some(serialize(obj1)), RequestBody);
    var body2 := Parameter(req.jsonSerializer.contentType, Some(serialize(obj2)), RequestBody);
    var ps1 := req.parameters + [body1];
    FirstBodyAppend(req.parameters, body1);
    FirstBodyAppend(ps1, body2);
    BuildUriIgnoresBody(req, None, body1, escape);
  }

  /** Appending a parameter changes the first body parameter only when there
      was none and the new one is a body. */
  lemma {:induction false} FirstBodyAppend(ps: seq<Parameter>, p: Parameter)
    ensures FirstBody(ps + [p]) == if FirstBody(ps).None? && p.kind == RequestBody then Some(p) else FirstBody(ps)
    decreases |ps|
  {
    if |ps| > 0 {
      assert (ps + [p])[1..] == ps[1..] + [p];
      FirstBodyAppend(ps[1..], p);
    }
  }

  /** A GET does not clear the shared header collection: a second GET with
      the same request adds each of its headers again, so a header the
      request holds as `v` is sent once as `v` and then as `v,v`. */
  lemma RepeatedGetDuplicatesHeaders(req: RestRequest, http: HttpState, id: Option<string>, escape: string -> string,
                                     transport: Transport, name: string, v: string)
    requires Valid(req.endpoint)
    requires Buildable(req.parameters)
    requires WellFormed(req.headers)
    requires NameValues.Get(req.headers, name) == Some(v)
    requires NameValues.Get(http.headers, name) == None
    ensures var once := Get(req, http, id, escape, transport);
            && once.Success?
            && NameValues.Get(once.value.http.headers, name) == Some(v)
            && var twice := Get(req, once.value.http, id, escape, transport);
               && twice.Success?
               && NameValues.Get(twice.value.http.headers, name) == Some(v + "," + v)
  {
    var once := Get(req, http, id, escape, transport);
    assert NameValues.Get(once.value.http.headers, name) == Appended(None, Some(v));
    var twice := Get(req, once.value.http, id, escape, transport);
    assert NameValues.Get(twice.value.http.headers, name) == Appended(Some(v), Some(v));
  }

  /** An encoding that leaves every string as it is; on the plain words of
      the examples below, `Uri.EscapeDataString` behaves this way. */
  function Identity(s: string): string { s }

  const ExampleEndpoint: Uri := Uri("http", "endpoint.com", 80, "/", "")

  /** Joining under the root path `/` gives `/` followed by the segment. */
  lemma PathCombineAtRoot(b: string)
    requires !IsBlank(b) && b[0] !in PathSeparators
    ensures PathCombine(Some("/"), Some(b)) == Some("/" + b)
  {
    assert !IsBlank("/") by { assert !IsWhiteSpace("/"[0]); }
    assert TrimEnd("/", PathSeparators) == "";
    assert TrimStart(b, PathSeparators) == b;
    assert "" + "/" + b == "/" + b;
  }

  /** Joining two segments that carry no separator at the seam puts exactly
      one `/` between them. */
  lemma PathCombinePlain(a: string, b: string)
    requires !IsBlank(a) && !IsBlank(b)
    requires a[|a| - 1] !in PathSeparators && b[0] !in PathSeparators
    ensures PathCombine(Some(a), Some(b)) == Some(a + "/" + b)
  {
  }

  /** Under the root path, a resource name and an identifier without
      separators at their ends give `/name` and `/name/id`. */
  lemma RootResourcePaths(ep: Uri, rn: string, id: string)
    requires Valid(ep) && ep.path == "/"
    requires !IsBlank(rn) && rn[0] !in PathSeparators && rn[|rn| - 1] !in PathSeparators
    requires !IsBlank(id) && id[0] !in PathSeparators
    ensures CombinedPath(NewRequest(ep, Some(rn)), None) == "/" + rn
    ensures CombinedPath(NewRequest(ep, Some(rn)), Some(id)) == "/" + rn + "/" + id
  {
    PathCombineAtRoot(rn);
    RootResourceWithId(rn, id);
  }

  lemma RootResourceWithId(rn: string, id: string)
    requires !IsBlank(rn) && rn[|rn| - 1] !in PathSeparators
    requires !IsBlank(id) && id[0] !in PathSeparators
    ensures PathCombine(Some("/" + rn), Some(id)) == Some("/" + rn + "/" + id)
  {
    var path := "/" + rn;
    assert !IsBlank(path) by { assert !IsWhiteSpace(path[0]); }
    assert path[|path| - 1] == rn[|rn| - 1];
    PathCombinePlain(path, id);
  }

  /** The paths `RestRequestTests` expects against `http://endpoint.com`. */
  lemma EndpointPathExamples()
    ensures CombinedPath(NewRequest(ExampleEndpoint, Some("resource")), None) == "/" + "resource"
    ensures CombinedPath(NewRequest(ExampleEndpoint, Some("resource")), Some("1")) == "/" + "resource" + "/" + "1"
  {
    var resource: string := "resource";
    var one: string := "1";
    assert !IsBlank(resource) by { assert !IsWhiteSpace(resource[0]); }
    assert !IsBlank(one) by { assert !IsWhiteSpace(one[0]); }
    RootResourcePaths(ExampleEndpoint, resource, one);
  }

  /** The URIs `RestRequestTests` expects: the default port dropped, the
      resource name and identifier appended to the endpoint's path. */
  lemma EndpointUriExamples()
    ensures BuildUri(NewRequest(ExampleEndpoint, Some("resource")), None, Identity)
         == Success(Uri("http", "endpoint.com", -1, "/" + "resource", ""))
    ensures BuildUri(NewRequest(ExampleEndpoint, Some("resource")), Some("1"), Identity)
         == Success(Uri("http", "endpoint.com", -1, "/" + "resource" + "/" + "1", ""))
  {
    EndpointPathExamples();
    var req := NewRequest(ExampleEndpoint, Some("resource"));
    assert Kept(req.parameters, QueryString) == [] && Kept(req.parameters, Matrix) == [];
  }

  /** Two matrix parameters with values and then one with a blank value:
      the first two are appended to the path in order, the blank one is
      omitted, and the query is untouched. */
  lemma TwoMatrixParametersThenBlank(req: RestRequest, n1: string, v1: string, n2: string, v2: string,
                                     n3: string, v3: Option<string>, escape: string -> string)
    requires Valid(req.endpoint) && Buildable(req.parameters)
    requires !IsBlank(v1) && !IsBlank(v2) && IsNullOrWhiteSpace(v3)
    ensures var r3 := AddMatrixParameter(AddMatrixParameter(AddMatrixParameter(req,
                        Some(n1), Some(v1)), Some(n2), Some(v2)), Some(n3), v3);
            var before := BuildUri(req, None, escape).value;
            var after := BuildUri(r3, None, escape);
            && after.Success?
            && after.value.query == before.query
            && after.value.path == before.path + ";" + UrlEncode(Some(n1), escape).value + "=" + UrlEncode(Some(v1), escape).value
                                   + ";" + UrlEncode(Some(n2), escape).value + "=" + UrlEncode(Some(v2), escape).value
  {
    var r1 := AddMatrixParameter(req, Some(n1), Some(v1));
    var r2 := AddMatrixParameter(r1, Some(n2), Some(v2));
    AddMatrixParameterEffect(req, None, n1, Some(v1), escape);
    AddMatrixParameterEffect(r1, None, n2, Some(v2), escape);
    AddMatrixParameterEffect(r2, None, n3, v3, escape);
  }

  /** The matrix parameters `RestRequestTests` adds: two with values and
      one with an empty value, which is omitted. */
  lemma MatrixExample()
    ensures var req := NewRequest(ExampleEndpoint, Some("resource"));
            var withMatrix := AddMatrixParameter(AddMatrixParameter(AddMatrixParameter(req,
                                Some("matrixparam1"), Some("value1")),
                                Some("matrixparam2"), Some("value2")),
                                Some("matrixparam3"), Some(""));
            BuildUri(withMatrix, None, Identity)
              == Success(Uri("http", "endpoint.com", -1,
                   "/" + "resource" + ";" + "matrixparam1" + "=" + "value1" + ";" + "matrixparam2" + "=" + "value2", ""))
  {
    EndpointUriExamples();
    var req := NewRequest(ExampleEndpoint, Some("resource"));
    MatrixExampleInputs();
    TwoMatrixParametersThenBlank(req, "matrixparam1", "value1", "matrixparam2", "value2", "matrixparam3", Some(""), Identity);
  }

  /** What the matrix example relies on about its names and values. */
  lemma MatrixExampleInputs()
    ensures UrlEncode(Some("matrixparam1"), Identity) == Success("matrixparam1")
    ensures UrlEncode(Some("matrixparam2"), Identity) == Success("matrixparam2")
    ensures UrlEncode(Some("value1"), Identity) == Success("value1")
    ensures UrlEncode(Some("value2"), Identity) == Success("value2")
    ensures !IsBlank("value1") && !IsBlank("value2") && IsBlank("")
  {
    IdentityEncodes("matrixparam1");
    IdentityEncodes("matrixparam2");
    IdentityEncodes("value1");
    IdentityEncodes("value2");
    assert !IsWhiteSpace("value1"[0]);
    assert !IsWhiteSpace("value2"[0]);
  }

  lemma IdentityEncodes(s: string)
    ensures UrlEncode(Some(s), Identity) == Success(s)
  {
    assert Homomorphic(Identity);
    ChunkedEqualsWhole(s, Identity);
  }
}
