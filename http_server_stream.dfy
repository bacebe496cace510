/**
 * `HttpServerStream`: the server side of an HTTP connection. One request
 * at a time is read into the `_request` slot and handed to the parent;
 * responses are sent with `Connection: close` honoured, and an access
 * log line is formatted for each.
 */
module HttpServerStream {

  import opened Common
  import opened PyStr
  import opened HttpMessage
  import opened HttpFraming
  import HttpStream
  import Stream

  /** 3-letter month names, indexed by `tm_mon` (1 to 12). */
  const MONTH: seq<string> :=
    ["", "Jan", "Feb", "Mar", "Apr", "May", "Jun", "Jul", "Aug", "Sep", "Oct", "Nov", "Dec"]

  /**
   * The server's state: the `_request` slot, the body octets handed to
   * the parent's `got_request_body_piece` for it, and the requests
   * handed to `got_request`, oldest first.
   */
  datatype ServerRole = ServerRole(request: Option<Message>, body: Bytes, handed: seq<(Message, Bytes)>)

  /**
   * The parent's decisions: whether `got_request_headers` accepts a
   * request, what `nextstate` makes of it, and whether `got_request`
   * leaves the stream closing (`HttpServer.RequestCloses` is the
   * decision of `HttpServer`).
   */
  datatype ServerEnv = ServerEnv(accepts: Message -> bool, nextState: Message -> (FState, int),
                                 closes: Message -> bool)

  /** `got_first_line`: a request line starts a new request in the slot. */
  function GotRequestLine(r: ServerRole, verb: string, uri: string, protocol: string): (o: Option<ServerRole>)
    ensures o.Some? <==> KnownProtocol(protocol)
    ensures o.Some? ==>
      o.value.request == Some(Blank.(requestMethod := verb, uri := uri, protocol := protocol))
      && o.value.body == [] && o.value.handed == r.handed
  {
    if !KnownProtocol(protocol) then None
    else Some(r.(request := Some(Blank.(requestMethod := verb, uri := uri, protocol := protocol)), body := []))
  }

  /** `got_header`: the header is set on the request in the slot. */
  function GotHeader(r: ServerRole, key: string, value: string): (o: Option<ServerRole>)
    ensures o.Some? <==> r.request.Some?
    ensures o.Some? ==>
      o.value.request.Some? && o.value.body == r.body && o.value.handed == r.handed
      && Get(o.value.request.value, key) == value
      && forall k :: k != key ==> Get(o.value.request.value, k) == Get(r.request.value, k)
  {
    match r.request
    case None => None
    case Some(m) => Some(r.(request := Some(SetHeader(m, key, value))))
  }

  /** `got_end_of_headers`: ERROR with no body when the parent refuses the request. */
  function GotEndOfHeaders(env: ServerEnv, r: ServerRole): (o: Option<Headers<ServerRole>>)
    ensures o.Some? <==> r.request.Some?
    ensures o.Some? ==> o.value.role == r && !o.value.closed
    ensures o.Some? && !env.accepts(r.request.value) ==> o.value.state == Error && o.value.left == 0
    ensures o.Some? && env.accepts(r.request.value) ==>
      (o.value.state, o.value.left) == env.nextState(r.request.value)
  {
    match r.request
    case None => None
    case Some(m) =>
      if !env.accepts(m) then Some(Headers(r, Error, 0, false))
      else
        var (s, n) := env.nextState(m);
        Some(Headers(r, s, n, false))
  }

  /** `got_piece`: the piece goes to the parent, for the request in the slot. */
  function GotBodyPiece(r: ServerRole, piece: Bytes): (o: Option<ServerRole>)
    ensures o.Some? <==> r.request.Some?
    ensures o.Some? ==> o.value == r.(body := r.body + piece)
  {
    if r.request.None? then None else Some(r.(body := r.body + piece))
  }

  /**
   * `got_end_of_body`: the request goes to the parent and the slot is
   * emptied; the stream is closed afterwards exactly when the parent's
   * `got_request` closed it.
   */
  function GotEndOfBody(env: ServerEnv, r: ServerRole): (o: Option<Reply<ServerRole>>)
    ensures o.Some? <==> r.request.Some?
    ensures o.Some? ==>
      o.value.role.request.None? && o.value.role.handed == r.handed + [(r.request.value, r.body)]
      && (o.value.closed <==> env.closes(r.request.value))
  {
    match r.request
    case None => None
    case Some(m) => Some(Reply(ServerRole(None, [], r.handed + [(m, r.body)]), env.closes(m)))
  }

  function ServerHooks(env: ServerEnv): Hooks<ServerRole>
  {
    Hooks((r, m, u, p) => GotRequestLine(r, m, u, p),
          (r, k, v) => GotHeader(r, k, v),
          r => GotEndOfHeaders(env, r),
          (r, b) => GotBodyPiece(r, b),
          r => GotEndOfBody(env, r))
  }

  /** The request body handed to the parent does not depend on how it was cut. */
  lemma ServerPiecesAdditive(env: ServerEnv)
    ensures Additive(ServerHooks(env))
  {
    var h := ServerHooks(env);
    forall r: ServerRole, a: Bytes, b: Bytes | |a| > 0 && |b| > 0
      ensures h.piece(r, a + b) == PieceThen(h, h.piece(r, a), b)
    {
      assert r.body + (a + b) == (r.body + a) + b;
    }
  }

  /**
   * However the octets of the requests arrive, the server ends in the
   * same state as if they had arrived in one read.
   */
  lemma ServerSplitIndependent(env: ServerEnv, e: Engine<ServerRole>, fragments: seq<Bytes>)
    ensures Same(FeedAll(ServerHooks(env), Waiting(e, []), fragments, EveryLine),
                 Scan(ServerHooks(env), e, Join(fragments), false, EveryLine))
  {
    ServerPiecesAdditive(env);
    SplitIndependent(ServerHooks(env), e, fragments);
  }

  /**
   * A bodyless request whose `got_request` closes the stream ends the
   * scan at the blank line after its headers: the octets behind it, a
   * pipelined request for instance, are never read.
   */
  lemma ClosingRequestStops(env: ServerEnv, r: ServerRole, tail: Bytes)
    requires r.request.Some? && env.accepts(r.request.value) && env.closes(r.request.value)
    requires env.nextState(r.request.value) == (FirstLine, 0)
    ensures Scan(ServerHooks(env), Engine(Header, 0, r), CRLF + tail, false, EveryLine)
         == Stopped(Engine(FirstLine, 0, ServerRole(None, [], r.handed + [(r.request.value, r.body)])))
  {
    var h := ServerHooks(env);
    var e := Engine(Header, 0, r);
    assert CRLF + tail == [CR] + [NL] + tail;
    LineTaken(h, e, [CR], tail, false);
    CrlfLine([]);
    assert [] + [CR] + [NL] == [CR] + [NL];
    assert AllSpace("\r\n");
    EndOfHeadersDecides(h, e, "\r\n");
  }

  // ----- Responses -------------------------------------------------------------

  /**
   * The response as sent: the rewriter's, and then, when the request
   * asks for `Connection: close` or is HTTP/1.0, with that header
   * replaced by exactly "close".
   */
  function FinalResponse(request: Message, response: Message, rewrite: (Message, Message) -> Message): (r: Message)
    ensures var w := rewrite(request, response);
      if Get(request, "connection") == "close" || request.protocol == "HTTP/1.0" then
        Get(r, "connection") == "close" && forall k :: k != "connection" ==> Get(r, k) == Get(w, k)
      else r == w
  {
    var w := rewrite(request, response);
    if Get(request, "connection") == "close" || request.protocol == "HTTP/1.0" then
      SetHeader(DeleteHeader(w, "connection"), "connection", "close")
    else w
  }

  /** The byte count an access log line shows: "-" for none. */
  function LoggedBytes(contentLength: string): (r: string)
    ensures contentLength == "" || contentLength == "0" ==> r == "-"
    ensures contentLength != "" && contentLength != "0" ==> r == contentLength
  {
    if contentLength != "" && contentLength != "0" then contentLength else "-"
  }

  /**
   * The fields of `time.gmtime()` an access log line uses. `tm_mon` is
   * 1 to 12 and the others are non-negative.
   */
  datatype Tm = Tm(mday: nat, mon: nat, year: nat, hour: nat, min: nat, sec: nat)

  /** `"%02d/%s/%04d:%02d:%02d:%02d -0000"` of those fields. */
  function TimeString(t: Tm): string
    requires 1 <= t.mon <= 12
  {
    ZeroPad(t.mday, 2) + "/" + MONTH[t.mon] + "/" + ZeroPad(t.year, 4) + ":"
    + ZeroPad(t.hour, 2) + ":" + ZeroPad(t.min, 2) + ":" + ZeroPad(t.sec, 2) + " -0000"
  }

  predicate AllDigits(s: string)
  {
    forall i :: 0 <= i < |s| ==> IsDecDigit(s[i])
  }

  /** `%0Nd` of a number below `10^N` is exactly `N` digits that read back as the number. */
  lemma PaddedField(n: nat, width: nat)
    requires width > 0 && n < Pow10(width)
    ensures |ZeroPad(n, width)| == width && AllDigits(ZeroPad(n, width))
    ensures DecimalValue(ZeroPad(n, width)) == n
  {
    DecimalLength(n, width);
    ZeroPadValue(n, width);
  }

  lemma MonthLength(m: nat)
    requires 1 <= m <= 12
    ensures |MONTH[m]| == 3
  {
    if m <= 6 {
      assert m == 1 || m == 2 || m == 3 || m == 4 || m == 5 || m == 6;
    } else {
      assert m == 7 || m == 8 || m == 9 || m == 10 || m == 11 || m == 12;
    }
  }

  /**
   * The layout of the time string: fields of widths 2, 3, 4, 2, 2, 2 with
   * their separators sit at fixed positions.
   */
  lemma Layout(d: string, m: string, y: string, h: string, mi: string, se: string)
    requires |d| == 2 && |m| == 3 && |y| == 4 && |h| == 2 && |mi| == 2 && |se| == 2
    ensures var s := d + "/" + m + "/" + y + ":" + h + ":" + mi + ":" + se + " -0000";
      |s| == 26 && s[0..2] == d && s[2] == '/' && s[3..6] == m && s[6] == '/'
      && s[7..11] == y && s[11] == ':' && s[12..14] == h && s[14] == ':'
      && s[15..17] == mi && s[17] == ':' && s[18..20] == se && s[20..] == " -0000"
  {
    var s := d + "/" + m + "/" + y + ":" + h + ":" + mi + ":" + se + " -0000";
    assert s[0..2] == d by { assert s == d + (s[2..]); }
    assert s[3..6] == m by { assert s == (d + "/") + m + s[6..]; }
    assert s[7..11] == y by { assert s == (d + "/" + m + "/") + y + s[11..]; }
    assert s[12..14] == h by { assert s == (d + "/" + m + "/" + y + ":") + h + s[14..]; }
    assert s[15..17] == mi by { assert s == (d + "/" + m + "/" + y + ":" + h + ":") + mi + s[17..]; }
    assert s[18..20] == se by { assert s == (d + "/" + m + "/" + y + ":" + h + ":" + mi + ":") + se + s[20..]; }
  }

  /**
   * For fields of their usual sizes the time string is 26 characters,
   * and each field can be read back at its fixed position.
   */
  lemma TimeStringFields(t: Tm)
    requires 1 <= t.mon <= 12 && t.mday < 100 && t.year < 10000
    requires t.hour < 100 && t.min < 100 && t.sec < 100
    ensures var s := TimeString(t);
      |s| == 26
      && AllDigits(s[0..2]) && DecimalValue(s[0..2]) == t.mday
      && s[2] == '/' && s[3..6] == MONTH[t.mon] && s[6] == '/'
      && AllDigits(s[7..11]) && DecimalValue(s[7..11]) == t.year
      && s[11] == ':' && AllDigits(s[12..14]) && DecimalValue(s[12..14]) == t.hour
      && s[14] == ':' && AllDigits(s[15..17]) && DecimalValue(s[15..17]) == t.min
      && s[17] == ':' && AllDigits(s[18..20]) && DecimalValue(s[18..20]) == t.sec
      && s[20..] == " -0000"
  {
    assert Pow10(2) == 100 && Pow10(4) == 10000 by {
      assert Pow10(1) == 10;
      assert Pow10(3) == 1000;
    }
    PaddedField(t.mday, 2);
    PaddedField(t.year, 4);
    PaddedField(t.hour, 2);
    PaddedField(t.min, 2);
    PaddedField(t.sec, 2);
    MonthLength(t.mon);
    Layout(ZeroPad(t.mday, 2), MONTH[t.mon], ZeroPad(t.year, 4), ZeroPad(t.hour, 2), ZeroPad(t.min, 2), ZeroPad(t.sec, 2));
  }

  /** The server stream: the HTTP stream with the server's callbacks. */
  class HttpServerStream {
    const http: HttpStream.HttpStream<ServerRole>
    /** `response_rewriter`, which by default leaves the response as it is. */
    var rewriter: (Message, Message) -> Message

    /** `HttpServerStream(poller, parent, sock, conf)`, with the slot empty. */
    constructor (poller: Stream.Poller, env: ServerEnv, now: int)
      ensures http.Valid() && fresh(http) && fresh(http.sock)
      ensures http.hooks == ServerHooks(env)
      ensures http.Cur() == Engine(FirstLine, 0, ServerRole(None, [], []))
      ensures forall q, p :: rewriter(q, p) == p
    {
      http := new HttpStream.HttpStream(poller, ServerHooks(env), ServerRole(None, [], []), now);
      rewriter := (q: Message, p: Message) => p;
    }

    /**
     * `send_response`: the final response is queued after everything sent
     * before, and the stream closes after it when that response says
     * `Connection: close`. Returns the response as sent.
     */
    method SendResponse(request: Message, response: Message) returns (sent: Message)
      requires http.Valid()
      modifies http, http.sock, http.sock.poller
      ensures http.Valid() && sent == FinalResponse(request, response, rewriter)
      ensures http.state == old(http.state) && http.left == old(http.left) && http.role == old(http.role)
      ensures !http.sock.closeComplete ==>
        http.Unsent() == old(http.Unsent()) + HttpStream.QueueBytes(HttpStream.Entries(sent, HttpStream.SMALLMESSAGE))
      ensures http.sock.closePending == (old(http.sock.closePending) || Get(sent, "connection") == "close")
    {
      sent := FinalResponse(request, response, rewriter);
      http.SendMessage(sent, HttpStream.SMALLMESSAGE);
      if Get(sent, "connection") == "close" {
        http.Close();
      }
    }
  }

  /**
   * The access log line for a response: peer address, time, request
   * line, status code and byte count.
   */
  function AccessLogLine(address: string, t: Tm, requestLine: string, response: Message): string
    requires 1 <= t.mon <= 12
  {
    address + " - - [" + TimeString(t) + "] \"" + requestLine + "\" " + response.code + " "
    + LoggedBytes(Get(response, "content-length"))
  }
}
