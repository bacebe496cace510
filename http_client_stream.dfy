/**
 * `HttpClientStream`: the client side of an HTTP connection. Requests
 * are queued as they are sent; each response that arrives belongs to
 * the request at the head of the queue.
 */
module HttpClientStream {

  import opened Common
  import opened HttpMessage
  import opened HttpFraming
  import HttpStream
  import Stream

  /**
   * A request, the response linked to it, and the body octets handed to
   * the parent's `got_response_body_piece` for that response.
   */
  datatype Exchange = Exchange(request: Message, response: Message, body: Bytes)

  /**
   * The client's state: the `_requests` FIFO, and the exchanges already
   * handed to the parent's `got_response`, oldest first.
   */
  datatype ClientRole = ClientRole(queue: seq<Exchange>, answered: seq<Exchange>)

  /**
   * The parent's decisions: whether `got_response_headers` accepts a
   * response, and what `nextstate` makes of a request and its response.
   */
  datatype ClientEnv = ClientEnv(accepts: (Message, Message) -> bool,
                                 nextState: (Message, Message) -> (FState, int))

  /** The requests in the order they were sent: answered ones, then queued ones. */
  function Requests(xs: seq<Exchange>): (r: seq<Message>)
    ensures |r| == |xs| && forall i :: 0 <= i < |xs| ==> r[i] == xs[i].request
  {
    if xs == [] then [] else [xs[0].request] + Requests(xs[1..])
  }

  function SentOrder(r: ClientRole): seq<Message>
  {
    Requests(r.answered + r.queue)
  }

  /** `got_first_line`: the status line fills in the head's response. */
  function GotStatusLine(r: ClientRole, protocol: string, code: string, reason: string): (o: Option<ClientRole>)
    ensures o.Some? <==> KnownProtocol(protocol) && r.queue != []
    ensures o.Some? ==>
      o.value.answered == r.answered && |o.value.queue| == |r.queue| && o.value.queue[1..] == r.queue[1..]
      && o.value.queue[0].request == r.queue[0].request && o.value.queue[0].body == r.queue[0].body
      && var m := o.value.queue[0].response;
         m.protocol == protocol && m.code == code && m.reason == reason
         && m.headers == r.queue[0].response.headers
  {
    if !KnownProtocol(protocol) || r.queue == [] then None
    else
      var x := r.queue[0];
      var m := x.response.(protocol := protocol, code := code, reason := reason);
      Some(r.(queue := [x.(response := m)] + r.queue[1..]))
  }

  /** `got_header`: the header is set on the head's response. */
  function GotHeader(r: ClientRole, key: string, value: string): (o: Option<ClientRole>)
    ensures o.Some? <==> r.queue != []
    ensures o.Some? ==>
      o.value.answered == r.answered && |o.value.queue| == |r.queue| && o.value.queue[1..] == r.queue[1..]
      && o.value.queue[0].request == r.queue[0].request
      && Get(o.value.queue[0].response, key) == value
      && forall k :: k != key ==> Get(o.value.queue[0].response, k) == Get(r.queue[0].response, k)
  {
    if r.queue == [] then None
    else
      var x := r.queue[0];
      Some(r.(queue := [x.(response := SetHeader(x.response, key, value))] + r.queue[1..]))
  }

  /** `got_end_of_headers`: ERROR with no body when the parent refuses the response. */
  function GotEndOfHeaders(env: ClientEnv, r: ClientRole): (o: Option<Headers<ClientRole>>)
    ensures o.Some? <==> r.queue != []
    ensures o.Some? ==> o.value.role == r && !o.value.closed
    ensures o.Some? && !env.accepts(r.queue[0].request, r.queue[0].response) ==>
      o.value.state == Error && o.value.left == 0
    ensures o.Some? && env.accepts(r.queue[0].request, r.queue[0].response) ==>
      (o.value.state, o.value.left) == env.nextState(r.queue[0].request, r.queue[0].response)
  {
    if r.queue == [] then None
    else
      var x := r.queue[0];
      if !env.accepts(x.request, x.response) then Some(Headers(r, Error, 0, false))
      else
        var (s, n) := env.nextState(x.request, x.response);
        Some(Headers(r, s, n, false))
  }

  /** `got_piece`: the piece goes to the parent, for the head's response. */
  function GotBodyPiece(r: ClientRole, piece: Bytes): (o: Option<ClientRole>)
    ensures o.Some? <==> r.queue != []
    ensures o.Some? ==>
      o.value.answered == r.answered && |o.value.queue| == |r.queue| && o.value.queue[1..] == r.queue[1..]
      && o.value.queue[0] == r.queue[0].(body := r.queue[0].body + piece)
  {
    if r.queue == [] then None
    else
      var x := r.queue[0];
      Some(r.(queue := [x.(body := x.body + piece)] + r.queue[1..]))
  }

  /**
   * `got_end_of_body`: the head leaves the queue and is handed to the
   * parent; the stream closes when the request or the response says
   * `Connection: close`.
   */
  function GotEndOfBody(r: ClientRole): (o: Option<Reply<ClientRole>>)
    ensures o.Some? <==> r.queue != []
    ensures o.Some? ==>
      o.value.role.queue == r.queue[1..] && o.value.role.answered == r.answered + [r.queue[0]]
      && (o.value.closed <==> Get(r.queue[0].request, "connection") == "close"
                              || Get(r.queue[0].response, "connection") == "close")
  {
    if r.queue == [] then None
    else
      var x := r.queue[0];
      Some(Reply(ClientRole(r.queue[1..], r.answered + [x]),
                 Get(x.request, "connection") == "close" || Get(x.response, "connection") == "close"))
  }

  function ClientHooks(env: ClientEnv): Hooks<ClientRole>
  {
    Hooks((r, p, c, s) => GotStatusLine(r, p, c, s),
          (r, k, v) => GotHeader(r, k, v),
          r => GotEndOfHeaders(env, r),
          (r, b) => GotBodyPiece(r, b),
          r => GotEndOfBody(r))
  }

  lemma RequestsAppend(a: seq<Exchange>, b: seq<Exchange>)
    ensures Requests(a + b) == Requests(a) + Requests(b)
  {
  }

  /**
   * No callback reorders, drops or changes requests: the order in which
   * they were sent is that of the answered ones followed by the queue.
   */
  lemma CallbacksKeepSendOrder(env: ClientEnv, r: ClientRole, a: string, b: string, c: string, piece: Bytes)
    ensures GotStatusLine(r, a, b, c).Some? ==> SentOrder(GotStatusLine(r, a, b, c).value) == SentOrder(r)
    ensures GotHeader(r, a, b).Some? ==> SentOrder(GotHeader(r, a, b).value) == SentOrder(r)
    ensures GotEndOfHeaders(env, r).Some? ==> SentOrder(GotEndOfHeaders(env, r).value.role) == SentOrder(r)
    ensures GotBodyPiece(r, piece).Some? ==> SentOrder(GotBodyPiece(r, piece).value) == SentOrder(r)
    ensures GotEndOfBody(r).Some? ==> SentOrder(GotEndOfBody(r).value.role) == SentOrder(r)
  {
    if r.queue != [] {
      assert r.answered + r.queue == r.answered + [r.queue[0]] + r.queue[1..];
      RequestsAppend(r.answered, r.queue);
      RequestsAppend(r.answered + [r.queue[0]], r.queue[1..]);
      var o := GotEndOfBody(r).value.role;
      RequestsAppend(o.answered, o.queue);
      var s := GotStatusLine(r, a, b, c);
      if s.Some? {
        assert s.value.queue == [s.value.queue[0]] + r.queue[1..];
        RequestsAppend(r.answered, s.value.queue);
        RequestsAppend([s.value.queue[0]], r.queue[1..]);
        RequestsAppend([r.queue[0]], r.queue[1..]);
        assert r.queue == [r.queue[0]] + r.queue[1..];
      }
      var g := GotHeader(r, a, b).value;
      assert g.queue == [g.queue[0]] + r.queue[1..];
      RequestsAppend(r.answered, g.queue);
      RequestsAppend([g.queue[0]], r.queue[1..]);
      RequestsAppend([r.queue[0]], r.queue[1..]);
      assert r.queue == [r.queue[0]] + r.queue[1..];
      var p := GotBodyPiece(r, piece).value;
      assert p.queue == [p.queue[0]] + r.queue[1..];
      RequestsAppend(r.answered, p.queue);
      RequestsAppend([p.queue[0]], r.queue[1..]);
    }
  }

  /** The body handed to the parent is the same however it was cut into pieces. */
  lemma ClientPiecesAdditive(env: ClientEnv)
    ensures Additive(ClientHooks(env))
  {
    var h := ClientHooks(env);
    forall r: ClientRole, a: Bytes, b: Bytes | |a| > 0 && |b| > 0
      ensures h.piece(r, a + b) == PieceThen(h, h.piece(r, a), b)
    {
      if r.queue != [] {
        var x := r.queue[0];
        assert x.body + (a + b) == (x.body + a) + b;
        var r1 := GotBodyPiece(r, a).value;
        assert r1.queue[1..] == r.queue[1..];
      }
    }
  }

  /**
   * However the octets of the responses arrive, the client ends in the
   * same state as if they had arrived in one read.
   */
  lemma ClientSplitIndependent(env: ClientEnv, e: Engine<ClientRole>, fragments: seq<Bytes>)
    ensures Same(FeedAll(ClientHooks(env), Waiting(e, []), fragments, EveryLine),
                 Scan(ClientHooks(env), e, Join(fragments), false, EveryLine))
  {
    ClientPiecesAdditive(env);
    SplitIndependent(ClientHooks(env), e, fragments);
  }

  /** The client stream: the HTTP stream with the client's callbacks. */
  class HttpClientStream {
    const http: HttpStream.HttpStream<ClientRole>

    /**
     * `HttpClientStream(poller, parent, sock, conf)`, with the queue
     * empty; the parent's decisions are `env`.
     */
    constructor (poller: Stream.Poller, env: ClientEnv, now: int)
      ensures http.Valid() && fresh(http) && fresh(http.sock)
      ensures http.hooks == ClientHooks(env)
      ensures http.Cur() == Engine(FirstLine, 0, ClientRole([], []))
    {
      http := new HttpStream.HttpStream(poller, ClientHooks(env), ClientRole([], []), now);
    }

    /**
     * `send_request`: the request goes to the tail of the queue, linked to
     * the given response or to a fresh one, and its octets are queued
     * for sending after everything sent before.
     */
    method SendRequest(request: Message, response: Option<Message>)
      requires http.Valid()
      modifies http, http.sock, http.sock.poller
      ensures http.Valid()
      ensures http.role.queue == old(http.role.queue)
                + [Exchange(request, if response.Some? then response.value else Blank, [])]
      ensures http.role.answered == old(http.role.answered)
      ensures http.state == old(http.state) && http.left == old(http.left) && http.incoming == old(http.incoming)
      ensures !http.sock.closeComplete ==>
        http.Unsent() == old(http.Unsent()) + HttpStream.QueueBytes(HttpStream.Entries(request, HttpStream.SMALLMESSAGE))
    {
      var linked := if response.Some? then response.value else Blank;
      http.role := http.role.(queue := http.role.queue + [Exchange(request, linked, [])]);
      http.SendMessage(request, HttpStream.SMALLMESSAGE);
    }
  }
}
