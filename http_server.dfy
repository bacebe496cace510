/**
 * `HttpServer`: routes the requests of its server streams to child
 * servers registered under URI prefixes, answers 403 when no child
 * applies and 500 when a child fails.
 */
module HttpServer {

  import opened Common
  import opened PyStr
  import opened HttpMessage
  import HttpStream
  import HttpServerStream

  /** One entry of `_childs`: a prefix and the child registered under it. */
  datatype Route = Route(prefix: string, child: nat)

  function Prefixes(rs: seq<Route>): (r: seq<string>)
    ensures |r| == |rs| && forall i :: 0 <= i < |rs| ==> r[i] == rs[i].prefix
  {
    if rs == [] then [] else [rs[0].prefix] + Prefixes(rs[1..])
  }

  /** A dictionary has each key once. */
  predicate Distinct(rs: seq<Route>)
  {
    forall i, j :: 0 <= i < j < |rs| ==> rs[i].prefix != rs[j].prefix
  }

  /** `_childs.get(prefix)`. */
  function Lookup(rs: seq<Route>, prefix: string): (r: Option<nat>)
    requires Distinct(rs)
    ensures r.None? <==> prefix !in Prefixes(rs)
    ensures r.Some? ==> exists i :: 0 <= i < |rs| && rs[i] == Route(prefix, r.value)
  {
    var i := Find(Prefixes(rs), prefix, 0);
    if i == -1 then None else Some(rs[i].child)
  }

  /** In a dictionary a route's prefix looks up that route's child. */
  lemma LookupAt(rs: seq<Route>, k: nat)
    requires Distinct(rs) && k < |rs|
    ensures Lookup(rs, rs[k].prefix) == Some(rs[k].child)
  {
    assert Prefixes(rs)[k] == rs[k].prefix;
  }

  /** Adding a new prefix at the end keeps a dictionary and every other entry. */
  lemma AppendLookup(rs: seq<Route>, r: Route, p: string)
    requires Distinct(rs) && r.prefix !in Prefixes(rs)
    ensures Distinct(rs + [r])
    ensures Lookup(rs + [r], p) == if p == r.prefix then Some(r.child) else Lookup(rs, p)
  {
    var n := rs + [r];
    assert Prefixes(n) == Prefixes(rs) + [r.prefix];
    assert Distinct(n) by {
      forall i, j | 0 <= i < j < |n| ensures n[i].prefix != n[j].prefix {
        assert Prefixes(rs)[i] == rs[i].prefix;
      }
    }
    if p == r.prefix {
      LookupAt(n, |rs|);
    } else if p in Prefixes(rs) {
      var k :| 0 <= k < |rs| && Prefixes(rs)[k] == p;
      assert n[k] == rs[k];
      LookupAt(rs, k);
      LookupAt(n, k);
    }
  }

  /** Giving an existing route a new child keeps a dictionary and every other entry. */
  lemma ReplaceLookup(rs: seq<Route>, i: nat, child: nat, p: string)
    requires Distinct(rs) && i < |rs|
    ensures Distinct(rs[i := Route(rs[i].prefix, child)])
    ensures Prefixes(rs[i := Route(rs[i].prefix, child)]) == Prefixes(rs)
    ensures Lookup(rs[i := Route(rs[i].prefix, child)], p) == if p == rs[i].prefix then Some(child) else Lookup(rs, p)
  {
    var n := rs[i := Route(rs[i].prefix, child)];
    assert forall k :: 0 <= k < |rs| ==> n[k].prefix == rs[k].prefix;
    assert Prefixes(n) == Prefixes(rs);
    if p == rs[i].prefix {
      LookupAt(n, i);
    } else if p in Prefixes(rs) {
      var k :| 0 <= k < |rs| && Prefixes(rs)[k] == p;
      assert k != i && n[k] == rs[k];
      LookupAt(rs, k);
      LookupAt(n, k);
    }
  }

  /**
   * The index of the first route, in iteration order, whose prefix the
   * URI starts with; -1 when there is none.
   */
  function FirstMatch(rs: seq<Route>, uri: string): (r: int)
    ensures -1 <= r < |rs|
    ensures r == -1 <==> forall i :: 0 <= i < |rs| ==> !StartsWith(uri, rs[i].prefix)
    ensures r != -1 ==> StartsWith(uri, rs[r].prefix)
    ensures r != -1 ==> forall i :: 0 <= i < r ==> !StartsWith(uri, rs[i].prefix)
  {
    if rs == [] then -1
    else if StartsWith(uri, rs[0].prefix) then 0
    else
      var k := FirstMatch(rs[1..], uri);
      if k == -1 then -1 else k + 1
  }

  /** Where `process_request` sends a request. */
  datatype Routed = Forbid | Child(child: nat)

  /**
   * The routing decision, stated outright: a URI not starting with "/"
   * and one no prefix matches are forbidden; otherwise the first matching
   * child gets the request.
   */
  function Decide(rs: seq<Route>, uri: string): (r: Routed)
    ensures r == Forbid <==> !StartsWith(uri, "/") || forall i :: 0 <= i < |rs| ==> !StartsWith(uri, rs[i].prefix)
    ensures r.Child? ==>
      exists i :: (0 <= i < |rs| && StartsWith(uri, rs[i].prefix) && rs[i].child == r.child
                   && forall j :: 0 <= j < i ==> !StartsWith(uri, rs[j].prefix))
  {
    if !StartsWith(uri, "/") then Forbid
    else
      var i := FirstMatch(rs, uri);
      if i == -1 then Forbid else Child(rs[i].child)
  }

  /** What a child's `got_request_headers` does: accepts, refuses or raises. */
  datatype Verdict = Accept | Refuse | Raise

  /** The arguments of `HttpMessage.compose` used here. */
  datatype Page = Page(code: string, reason: string, body: string, keepalive: bool)

  const FORBIDDEN: Page := Page("403", "Forbidden", "403 Forbidden", true)
  const INTERNAL_ERROR: Page := Page("500", "Internal Server Error", "500 Internal Server Error", false)

  /**
   * Whether `got_request` leaves the stream closing: the 403 page closes
   * it when it goes out with `Connection: close`, which an HTTP/1.0
   * request or one asking for `Connection: close` always gets; a child
   * closes it exactly when it raises, through the 500 page.
   */
  function RequestCloses(rs: seq<Route>, request: Message, raises: nat -> bool, compose: Page -> Message,
                         rewrite: (Message, Message) -> Message): (c: bool)
    ensures Decide(rs, request.uri) == Forbid ==>
      (c <==> Get(HttpServerStream.FinalResponse(request, compose(FORBIDDEN), rewrite), "connection") == "close")
    ensures (Decide(rs, request.uri) == Forbid
             && (Get(request, "connection") == "close" || request.protocol == "HTTP/1.0")) ==> c
    ensures Decide(rs, request.uri).Child? ==> (c <==> raises(Decide(rs, request.uri).child))
  {
    match Decide(rs, request.uri)
    case Forbid => Get(HttpServerStream.FinalResponse(request, compose(FORBIDDEN), rewrite), "connection") == "close"
    case Child(c) => raises(c)
  }

  /**
   * Replacing the child of an existing route changes no routing
   * decision's index, only which child it names.
   */
  lemma {:induction false} ReplaceKeepsMatch(rs: seq<Route>, i: nat, child: nat, uri: string)
    requires i < |rs|
    ensures FirstMatch(rs[i := Route(rs[i].prefix, child)], uri) == FirstMatch(rs, uri)
  {
    if i > 0 {
      assert rs[i := Route(rs[i].prefix, child)][1..] == rs[1..][i - 1 := Route(rs[i].prefix, child)];
      ReplaceKeepsMatch(rs[1..], i - 1, child, uri);
    }
  }

  /** A route appended at the end is consulted only when no earlier one matches. */
  lemma {:induction false} AppendKeepsMatch(rs: seq<Route>, r: Route, uri: string)
    ensures FirstMatch(rs, uri) != -1 ==> FirstMatch(rs + [r], uri) == FirstMatch(rs, uri)
    ensures FirstMatch(rs, uri) == -1 ==>
      FirstMatch(rs + [r], uri) == (if StartsWith(uri, r.prefix) then |rs| else -1)
  {
    if rs != [] {
      assert (rs + [r])[1..] == rs[1..] + [r];
      AppendKeepsMatch(rs[1..], r, uri);
    }
  }

  /**
   * The last registration of a prefix wins: once `prefix` routes to a
   * child, registering it again routes the same requests to the new one.
   */
  lemma ReregisterRoutesToNewChild(rs: seq<Route>, i: nat, child: nat, uri: string)
    requires i < |rs| && FirstMatch(rs, uri) == i && StartsWith(uri, "/")
    ensures Decide(rs[i := Route(rs[i].prefix, child)], uri) == Child(child)
  {
    ReplaceKeepsMatch(rs, i, child, uri);
  }

  /**
   * `_on_internal_error`: a 500 page that closes the connection is sent,
   * then the stream is closed. Returns the response as sent.
   */
  method OnInternalError(stream: HttpServerStream.HttpServerStream, request: Message, compose: Page -> Message)
    returns (sent: Message)
    requires stream.http.Valid()
    modifies stream.http, stream.http.sock, stream.http.sock.poller
    ensures stream.http.Valid() && stream.http.sock.closePending
    ensures sent == HttpServerStream.FinalResponse(request, compose(INTERNAL_ERROR), stream.rewriter)
    ensures stream.http.role == old(stream.http.role)
    ensures !stream.http.sock.closeComplete ==>
      stream.http.Unsent() == old(stream.http.Unsent())
        + HttpStream.QueueBytes(HttpStream.Entries(sent, HttpStream.SMALLMESSAGE))
  {
    sent := stream.SendResponse(request, compose(INTERNAL_ERROR));
    ghost var unsent := stream.http.Unsent();
    ghost var cc := stream.http.sock.closeComplete;
    stream.http.Close();
    assert !stream.http.sock.closeComplete ==> !cc && stream.http.Unsent() == unsent;
  }

  /** The server: its children, in dictionary iteration order. */
  class HttpServer {
    var childs: seq<Route>

    predicate Valid()
      reads this
    {
      Distinct(childs)
    }

    /** `HttpServer(poller)`, with no child. */
    constructor ()
      ensures Valid() && childs == []
    {
      childs := [];
    }

    /**
     * `register_child`: afterwards `prefix` names `child` and every other
     * prefix names what it named before. A new prefix goes at the end;
     * an existing one keeps its place.
     */
    method RegisterChild(child: nat, prefix: string)
      requires Valid()
      modifies this
      ensures Valid()
      ensures Lookup(childs, prefix) == Some(child)
      ensures forall p :: p != prefix ==> Lookup(childs, p) == Lookup(old(childs), p)
      ensures prefix in Prefixes(old(childs)) ==> Prefixes(childs) == Prefixes(old(childs))
      ensures prefix !in Prefixes(old(childs)) ==> childs == old(childs) + [Route(prefix, child)]
    {
      var i := Find(Prefixes(childs), prefix, 0);
      if i == -1 {
        forall p | true
          ensures Distinct(childs + [Route(prefix, child)])
          ensures Lookup(childs + [Route(prefix, child)], p) == if p == prefix then Some(child) else Lookup(childs, p)
        {
          AppendLookup(childs, Route(prefix, child), p);
        }
        AppendLookup(childs, Route(prefix, child), prefix);
        childs := childs + [Route(prefix, child)];
      } else {
        assert childs[i].prefix == prefix;
        forall p | true
          ensures Distinct(childs[i := Route(prefix, child)])
          ensures Prefixes(childs[i := Route(prefix, child)]) == Prefixes(childs)
          ensures Lookup(childs[i := Route(prefix, child)], p) == if p == prefix then Some(child) else Lookup(childs, p)
        {
          ReplaceLookup(childs, i, child, p);
        }
        ReplaceLookup(childs, i, child, prefix);
        childs := childs[i := Route(prefix, child)];
      }
    }

    /** The `for prefix, child in self._childs.items()` search. */
    method Match(uri: string) returns (i: int)
      ensures i == FirstMatch(childs, uri)
    {
      i := 0;
      while i < |childs|
        invariant 0 <= i <= |childs|
        invariant forall j :: 0 <= j < i ==> !StartsWith(uri, childs[j].prefix)
      {
        if StartsWith(uri, childs[i].prefix) {
          return;
        }
        i := i + 1;
      }
      i := -1;
    }

    /**
     * `got_request_headers`: true when no prefix matches, the matching
     * child's verdict otherwise; a child that raises leads to the
     * internal-error page and false.
     */
    method GotRequestHeaders(stream: HttpServerStream.HttpServerStream, request: Message,
                             verdict: nat -> Verdict, compose: Page -> Message)
      returns (ok: bool, errorPage: Option<Message>)
      requires stream.http.Valid()
      modifies stream.http, stream.http.sock, stream.http.sock.poller
      ensures stream.http.Valid()
      ensures var i := FirstMatch(childs, request.uri);
        (i == -1 ==> ok && errorPage.None?)
        && (i != -1 ==> (ok <==> verdict(childs[i].child) == Accept)
                        && (errorPage.Some? <==> verdict(childs[i].child) == Raise))
      ensures errorPage.None? ==> unchanged(stream.http, stream.http.sock)
      ensures errorPage.Some? ==> stream.http.sock.closePending
      ensures errorPage.Some? ==> errorPage.value == HttpServerStream.FinalResponse(request, compose(INTERNAL_ERROR), stream.rewriter)
    {
      var i := Match(request.uri);
      if i == -1 {
        return true, None;
      }
      var v := verdict(childs[i].child);
      if v == Raise {
        var sent := OnInternalError(stream, request, compose);
        return false, Some(sent);
      }
      return v == Accept, None;
    }

    /**
     * `process_request`: the 403 page for a forbidden request, otherwise
     * the request goes to the first matching child. Returns the decision
     * and the response sent, if any.
     */
    method ProcessRequest(stream: HttpServerStream.HttpServerStream, request: Message, compose: Page -> Message)
      returns (routed: Routed, sent: Option<Message>)
      requires stream.http.Valid()
      modifies stream.http, stream.http.sock, stream.http.sock.poller
      ensures stream.http.Valid() && stream.http.role == old(stream.http.role)
      ensures routed == Decide(childs, request.uri)
      ensures sent.Some? <==> routed == Forbid
      ensures sent.None? ==> unchanged(stream.http, stream.http.sock)
      ensures sent.Some? ==> sent.value == HttpServerStream.FinalResponse(request, compose(FORBIDDEN), stream.rewriter)
      ensures sent.Some? ==>
        stream.http.sock.closePending == (old(stream.http.sock.closePending) || Get(sent.value, "connection") == "close")
      ensures sent.Some? && !stream.http.sock.closeComplete ==>
        stream.http.Unsent() == old(stream.http.Unsent())
          + HttpStream.QueueBytes(HttpStream.Entries(sent.value, HttpStream.SMALLMESSAGE))
    {
      if !StartsWith(request.uri, "/") {
        var m := stream.SendResponse(request, compose(FORBIDDEN));
        return Forbid, Some(m);
      }
      var i := Match(request.uri);
      if i != -1 {
        return Child(childs[i].child), None;
      }
      var m := stream.SendResponse(request, compose(FORBIDDEN));
      return Forbid, Some(m);
    }

    /**
     * `got_request`: `process_request`, with a child that raises turned
     * into the internal-error page and a closed connection.
     */
    method GotRequest(stream: HttpServerStream.HttpServerStream, request: Message,
                      raises: nat -> bool, compose: Page -> Message)
      returns (routed: Routed, sent: Option<Message>)
      requires stream.http.Valid()
      modifies stream.http, stream.http.sock, stream.http.sock.poller
      ensures stream.http.Valid() && stream.http.role == old(stream.http.role)
      ensures routed == Decide(childs, request.uri)
      ensures routed == Forbid ==>
        sent == Some(HttpServerStream.FinalResponse(request, compose(FORBIDDEN), stream.rewriter))
      ensures routed.Child? && !raises(routed.child) ==> sent.None? && unchanged(stream.http, stream.http.sock)
      ensures routed.Child? && raises(routed.child) ==> stream.http.sock.closePending
      ensures routed.Child? && raises(routed.child) ==> sent == Some(HttpServerStream.FinalResponse(request, compose(INTERNAL_ERROR), stream.rewriter))
      ensures stream.http.sock.closePending ==
        (old(stream.http.sock.closePending) || RequestCloses(childs, request, raises, compose, stream.rewriter))
      ensures sent.Some? && !stream.http.sock.closeComplete ==>
        stream.http.Unsent() == old(stream.http.Unsent())
          + HttpStream.QueueBytes(HttpStream.Entries(sent.value, HttpStream.SMALLMESSAGE))
    {
      routed, sent := ProcessRequest(stream, request, compose);
      if routed.Child? && raises(routed.child) {
        var m := OnInternalError(stream, request, compose);
        sent := Some(m);
      }
    }
  }
}
