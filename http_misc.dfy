/**
 * `urlsplit`: the post-processing of an already split URL into scheme,
 * address, port and the path with its query.
 */
module HttpMisc {

  import opened Common
  import opened PyStr

  /** The `(scheme, address, port, pathquery)` tuple. */
  datatype Split = Split(scheme: string, address: string, port: string, pathquery: string)

  /** The three `ValueError`s. */
  datatype UrlError = UnknownScheme | InvalidQuotedAddress | MissingPortSeparator

  datatype Result = Ok(value: Split) | Err(error: UrlError)

  predicate KnownScheme(scheme: string)
  {
    scheme == "http" || scheme == "https"
  }

  function DefaultPort(scheme: string): string
  {
    if scheme == "https" then "443" else "80"
  }

  /**
   * The path part: "/" for an empty path, and the query after a "?" when
   * there is one.
   */
  function PathQuery(path: string, query: string): (r: string)
    ensures |r| > 0
    ensures path != "" ==> StartsWith(r, path)
    ensures path == "" ==> StartsWith(r, "/")
    ensures query == "" ==> r == (if path == "" then "/" else path)
  {
    var p := if path == "" then "/" else path;
    if query == "" then p else p + "?" + query
  }

  /**
   * The components `urlparse.urlsplit` returned, post-processed. A
   * netloc in brackets is a quoted address whose port follows the "]";
   * otherwise the port follows the first ":"; a missing port is the
   * scheme's default.
   */
  function UrlSplit(scheme: string, netloc: string, path: string, query: string): (r: Result)
    ensures r == Err(UnknownScheme) <==> !KnownScheme(scheme)
    ensures r == Err(InvalidQuotedAddress) <==>
      KnownScheme(scheme) && StartsWith(netloc, "[") && ']' !in netloc[1..]
    ensures r == Err(MissingPortSeparator) <==>
      KnownScheme(scheme) && StartsWith(netloc, "[") && ']' in netloc[1..]
      && var after := Strip(netloc[1 + Find(netloc[1..], ']', 0) + 1..]);
         after != "" && after[0] != ':'
    ensures r.Ok? ==> r.value.scheme == scheme && r.value.pathquery == PathQuery(path, query)
  {
    if !KnownScheme(scheme) then Err(UnknownScheme)
    else if StartsWith(netloc, "[") then
      var rest := netloc[1..];
      var index := Find(rest, ']', 0);
      if index == -1 then Err(InvalidQuotedAddress)
      else
        var address := rest[..index];
        var port := Strip(rest[index + 1..]);
        if port == "" then Ok(Split(scheme, address, DefaultPort(scheme), PathQuery(path, query)))
        else if port[0] != ':' then Err(MissingPortSeparator)
        else Ok(Split(scheme, address, port[1..], PathQuery(path, query)))
    else if ':' in netloc then
      var i := Find(netloc, ':', 0);
      Ok(Split(scheme, netloc[..i], netloc[i + 1..], PathQuery(path, query)))
    else Ok(Split(scheme, netloc, DefaultPort(scheme), PathQuery(path, query)))
  }

  /** A host and port joined by ":" split back into the same two. */
  lemma HostPortRoundTrip(scheme: string, host: string, port: string, path: string, query: string)
    requires KnownScheme(scheme) && ':' !in host && !StartsWith(host, "[")
    ensures UrlSplit(scheme, host + ":" + port, path, query) == Ok(Split(scheme, host, port, PathQuery(path, query)))
  {
    var n := host + ":" + port;
    assert n[|host|] == ':';
    assert forall i :: 0 <= i < |host| ==> n[i] == host[i];
    assert Find(n, ':', 0) == |host|;
    assert n[..|host|] == host && n[|host| + 1..] == port;
  }

  /** A host with no port gets the scheme's default port. */
  lemma HostDefaultPort(scheme: string, host: string, path: string, query: string)
    requires KnownScheme(scheme) && ':' !in host && !StartsWith(host, "[")
    ensures UrlSplit(scheme, host, path, query) == Ok(Split(scheme, host, DefaultPort(scheme), PathQuery(path, query)))
    ensures scheme == "https" ==> DefaultPort(scheme) == "443"
    ensures scheme == "http" ==> DefaultPort(scheme) == "80"
  {
  }

  /** The "]" that ends a quoted address is found right after it. */
  lemma QuotedParts(address: string, tail: string)
    requires ']' !in address
    ensures var rest := ("[" + address + "]" + tail)[1..];
      Find(rest, ']', 0) == |address| && rest[..|address|] == address && rest[|address| + 1..] == tail
  {
    var rest := ("[" + address + "]" + tail)[1..];
    assert rest == address + "]" + tail;
    assert rest[|address|] == ']';
    assert forall i :: 0 <= i < |address| ==> rest[i] == address[i];
    assert rest[..|address|] == address;
  }

  /**
   * A quoted address followed by ":" and a port splits back into the
   * same two, the port being taken from the text after the ":".
   */
  lemma QuotedRoundTrip(scheme: string, address: string, port: string, path: string, query: string)
    requires KnownScheme(scheme) && ']' !in address
    requires port == "" || !IsSpace(port[|port| - 1])
    ensures UrlSplit(scheme, "[" + address + "]:" + port, path, query)
      == Ok(Split(scheme, address, port, PathQuery(path, query)))
  {
    var n := "[" + address + "]:" + port;
    assert n == "[" + address + "]" + (":" + port);
    QuotedParts(address, ":" + port);
    StripTight(":" + port);
    QuotedPort(scheme, n, path, query, address, ":" + port);
    assert (":" + port)[1..] == port;
  }

  /** The quoted branch of `UrlSplit`, once the "]" and the port text are known. */
  lemma QuotedPort(scheme: string, netloc: string, path: string, query: string, address: string, after: string)
    requires KnownScheme(scheme) && StartsWith(netloc, "[")
    requires Find(netloc[1..], ']', 0) == |address| && netloc[1..][..|address|] == address
    requires Strip(netloc[1..][|address| + 1..]) == after && after != [] && after[0] == ':'
    ensures UrlSplit(scheme, netloc, path, query) == Ok(Split(scheme, address, after[1..], PathQuery(path, query)))
  {
  }

  /** A quoted address with nothing or only spaces after the "]" gets the default port. */
  lemma QuotedDefaultPort(scheme: string, address: string, spaces: string, path: string, query: string)
    requires KnownScheme(scheme) && ']' !in address && AllSpace(spaces)
    ensures UrlSplit(scheme, "[" + address + "]" + spaces, path, query)
      == Ok(Split(scheme, address, DefaultPort(scheme), PathQuery(path, query)))
  {
    QuotedParts(address, spaces);
  }

  /** A path with no "?" and its query can be read back from the path part. */
  lemma PathQueryRoundTrip(path: string, query: string)
    requires '?' !in path && query != ""
    ensures var r := PathQuery(path, query);
      var i := Find(r, '?', 0);
      i != -1 && r[..i] == (if path == "" then "/" else path) && r[i + 1..] == query
  {
    var p := if path == "" then "/" else path;
    var r := p + "?" + query;
    assert r[|p|] == '?';
    assert forall i :: 0 <= i < |p| ==> r[i] == p[i];
    assert Find(r, '?', 0) == |p|;
    assert r[..|p|] == p && r[|p| + 1..] == query;
  }
}
