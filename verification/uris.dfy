/** The parts of a `System.Uri` / `UriBuilder` the request builder reads
    and writes. Parsing, escaping and rendering are the platform's and are
    not modelled. */
module Uris {

  /** `port` is `-1` when the URI carries no explicit port, as with
      `UriBuilder.Port = -1`. `query` is the query without its `?`. */
  datatype Uri = Uri(scheme: string, host: string, port: int, path: string, query: string)

  /** The port a scheme implies when none is written (section 6.2.3 of
      RFC 3986); `-1` for schemes without one. */
  function DefaultPort(scheme: string): int {
    if scheme == "http" then 80
    else if scheme == "https" then 443
    else -1
  }

  /** `Uri.IsDefaultPort`. */
  predicate IsDefaultPort(u: Uri) {
    u.port == -1 || u.port == DefaultPort(u.scheme)
  }

  /** The endpoints the model assumes: a path that is non-empty and starts
      with `/`, as it is for `http` and `https` endpoints. */
  predicate Valid(u: Uri) {
    |u.path| > 0 && u.path[0] == '/'
  }
}
