/**
 * `HttpStream`: a stream that receives HTTP messages through the framing
 * engine and sends them from a FIFO of buffers and body sources.
 *
 * The role on top of it (client or server) is the `hooks` it was created
 * with and the role state `role` they update.
 */
module HttpStream {

  import opened Common
  import opened HttpMessage
  import Stream
  import opened HttpFraming

  /** Messages up to this size are sent as one joined buffer. */
  const SMALLMESSAGE: nat := 8000

  /** An entry of the outgoing queue: octets, or a source read one chunk at a time. */
  datatype Out = Buffer(data: Bytes) | File(chunks: seq<Bytes>)

  /** Why a read or write event ended with an exception. */
  datatype Failure = StreamFailed(error: Stream.StreamError) | FramingFailed(fault: Fault)

  function EntryBytes(x: Out): Bytes
  {
    match x
    case Buffer(d) => d
    case File(c) => SourceBytes(c)
  }

  /** The octets the queue stands for, in order. */
  function QueueBytes(q: seq<Out>): Bytes
  {
    if q == [] then [] else EntryBytes(q[0]) + QueueBytes(q[1..])
  }

  lemma {:induction false} QueueBytesAppend(p: seq<Out>, q: seq<Out>)
    ensures QueueBytes(p + q) == QueueBytes(p) + QueueBytes(q)
  {
    if p != [] {
      assert (p + q)[0] == p[0];
      assert (p + q)[1..] == p[1..] + q;
      QueueBytesAppend(p[1..], q);
    } else {
      assert p + q == q;
    }
  }

  /** What one `read()` of a source returns, and the source afterwards. */
  function ReadChunk(c: seq<Bytes>): Bytes
  {
    if c == [] then [] else c[0]
  }

  function AfterRead(c: seq<Bytes>): seq<Bytes>
  {
    if c == [] then [] else c[1..]
  }

  /**
   * The octets still to go out: the rest of the pending send, then the
   * entries behind the one being sent; or the whole queue if no send is
   * pending.
   */
  function UnsentOf(pending: bool, octets: Bytes, q: seq<Out>): Bytes
  {
    if pending && q != [] then octets + QueueBytes(q[1..]) else QueueBytes(q)
  }

  /** Entries queued at the tail go out after everything already unsent. */
  lemma UnsentAppend(pending: bool, octets: Bytes, q: seq<Out>, extra: seq<Out>)
    requires pending ==> q != []
    ensures UnsentOf(pending, octets, q + extra) == UnsentOf(pending, octets, q) + QueueBytes(extra)
  {
    if pending {
      assert (q + extra)[1..] == q[1..] + extra;
      QueueBytesAppend(q[1..], extra);
      var a, b := QueueBytes(q[1..]), QueueBytes(extra);
      assert UnsentOf(pending, octets, q + extra) == octets + (a + b);
      assert octets + (a + b) == (octets + a) + b;
    } else {
      QueueBytesAppend(q, extra);
    }
  }

  /**
   * What `_flush` does to a queue when no send is pending and the stream
   * is not closing: source entries that read empty are dropped, a source
   * that yields octets gets them put in front of it, and the first
   * buffer reached is sent (the queue and the octets sent).
   */
  function Flushed(q: seq<Out>): (seq<Out>, Option<Bytes>)
    decreases |q|
  {
    if q == [] then ([], None)
    else match q[0]
      case Buffer(d) => (q, Some(d))
      case File(c) =>
        if ReadChunk(c) != [] then ([Buffer(ReadChunk(c)), File(AfterRead(c))] + q[1..], Some(ReadChunk(c)))
        else Flushed(q[1..])
  }

  /**
   * Flushing keeps the queue's octets and their order; it stops with the
   * send of the new head, or with an empty queue that stood for nothing.
   */
  lemma {:induction false} FlushedKeepsOrder(q: seq<Out>)
    ensures QueueBytes(Flushed(q).0) == QueueBytes(q)
    ensures Flushed(q).1.None? <==> Flushed(q).0 == []
    ensures Flushed(q).1.Some? ==> Flushed(q).0[0] == Buffer(Flushed(q).1.value)
    ensures Flushed(q).1.Some? ==> UnsentOf(true, Flushed(q).1.value, Flushed(q).0) == QueueBytes(q)
    ensures Flushed(q).1.None? ==> QueueBytes(q) == []
    decreases |q|
  {
    if q != [] {
      match q[0]
      case Buffer(d) =>
      case File(c) =>
        if ReadChunk(c) != [] {
          var q1 := [Buffer(ReadChunk(c)), File(AfterRead(c))] + q[1..];
          assert q1[1..] == [File(AfterRead(c))] + q[1..];
          assert q1[1..][1..] == q[1..];
          assert SourceBytes(c) == c[0] + SourceBytes(c[1..]);
        } else {
          assert SourceBytes(c) == [];
          FlushedKeepsOrder(q[1..]);
        }
    }
  }

  /** The queue entries for a message: one joined buffer, or headers then body. */
  function Entries(m: Message, small: int): seq<Out>
  {
    if 0 <= m.length <= small then [Buffer(m.serializedHeaders + FirstRead(m.body))]
    else [File([m.serializedHeaders]),
          match m.body
          case Octets(d) => Buffer(d)
          case Source(c) => File(c)]
  }

  /**
   * A small message goes out as its headers and the first read of its
   * body; otherwise as its headers and the whole body.
   */
  lemma MessageOctets(m: Message, small: int)
    ensures 0 <= m.length <= small ==>
      QueueBytes(Entries(m, small)) == m.serializedHeaders + FirstRead(m.body)
    ensures !(0 <= m.length <= small) ==>
      QueueBytes(Entries(m, small)) == SourceBytes([m.serializedHeaders])
        + (match m.body case Octets(d) => d case Source(c) => SourceBytes(c))
  {
    var q := Entries(m, small);
    if !(0 <= m.length <= small) {
      assert q[1..][1..] == [];
      assert QueueBytes(q[1..]) == EntryBytes(q[1]) + QueueBytes(q[1..][1..]);
      assert SourceBytes([m.serializedHeaders]) == EntryBytes(q[0]);
    } else {
      assert q[1..] == [];
    }
  }

  // ----- The source's send path, as written --------------------------------

  /**
   * One pass of the `_flush` loop as the source writes it, with no send
   * pending: the new queue and whether `start_send` took the send, which
   * it does not while the stream is closing.
   */
  function FlushPassAsWritten(q: seq<Out>, closing: bool): (seq<Out>, bool)
    requires q != []
  {
    match q[0]
    case Buffer(d) => (q, !closing)
    case File(c) =>
      if ReadChunk(c) != [] then ([Buffer(ReadChunk(c)), File(AfterRead(c))] + q[1..], !closing)
      else (q[1..], false)
  }

  /** At most `k` passes of that loop: the queue and whether a send started. */
  function FlushRunAsWritten(q: seq<Out>, closing: bool, k: nat): (seq<Out>, bool)
    decreases k
  {
    if k == 0 || q == [] then (q, false)
    else
      var p := FlushPassAsWritten(q, closing);
      if p.1 then p else FlushRunAsWritten(p.0, closing, k - 1)
  }

  /**
   * While the stream is closing, a buffer at the head of the queue is
   * never sent nor removed: after any number of passes the loop's
   * condition still holds, so `_flush` never returns.
   */
  lemma {:induction false} FlushAsWrittenSpins(d: Bytes, rest: seq<Out>, k: nat)
    ensures FlushRunAsWritten([Buffer(d)] + rest, true, k) == ([Buffer(d)] + rest, false)
  {
    if k > 0 {
      FlushAsWrittenSpins(d, rest, k - 1);
    }
  }

  /** The same happens with a source that still has octets: it is read once, then the loop spins. */
  lemma FlushAsWrittenSpinsOnSource(c: seq<Bytes>, rest: seq<Out>, k: nat)
    requires ReadChunk(c) != []
    ensures FlushRunAsWritten([File(c)] + rest, true, k + 1)
            == ([Buffer(ReadChunk(c)), File(AfterRead(c))] + rest, false)
  {
    var q := [File(c)] + rest;
    assert q[0] == File(c) && q[1..] == rest;
    var q1 := [Buffer(ReadChunk(c)), File(AfterRead(c))] + rest;
    assert q1 == [Buffer(ReadChunk(c))] + ([File(AfterRead(c))] + rest);
    FlushAsWrittenSpins(ReadChunk(c), [File(AfterRead(c))] + rest, k);
  }

  /**
   * When the stream is not closing, the loop as written does exactly what
   * `Flushed` says, within as many passes as the queue has entries.
   */
  lemma {:induction false} FlushAsWrittenAgrees(q: seq<Out>, k: nat)
    requires k >= |q|
    ensures FlushRunAsWritten(q, false, k) == (Flushed(q).0, Flushed(q).1.Some?)
    decreases |q|
  {
    if q != [] {
      match q[0]
      case Buffer(d) =>
      case File(c) =>
        if ReadChunk(c) == [] {
          FlushAsWrittenAgrees(q[1..], k - 1);
        }
    }
  }

  /** The send side of an `HttpStream`: the stream's pending send and the queue. */
  datatype SendSide = SendSide(pending: bool, octets: Bytes, queue: seq<Out>)

  /**
   * `handle_write` as the source writes it when the socket took all zero
   * octets of an empty pending send: `send_complete` pops the head, but
   * the send stays pending, so `_flush` does nothing and the stream stays
   * registered for writing.
   */
  function ZeroWriteAsWritten(s: SendSide): SendSide
    requires s.pending && s.octets == [] && s.queue != []
  {
    s.(queue := s.queue[1..])
  }

  /**
   * An empty buffer at the head with a message queued behind it: the next
   * writable event drops that message from the queue although nothing
   * was written, and the one after that empties the queue.
   */
  lemma ZeroWriteAsWrittenLosesOctets(x: Bytes)
    requires x != []
    ensures var s := SendSide(true, [], [Buffer([]), Buffer(x)]);
      var s1 := ZeroWriteAsWritten(s);
      UnsentOf(s.pending, s.octets, s.queue) == x
      && UnsentOf(s1.pending, s1.octets, s1.queue) == []
      && s1.pending && s1.octets == []
      && ZeroWriteAsWritten(s1).queue == []
  {
    var s := SendSide(true, [], [Buffer([]), Buffer(x)]);
    assert s.queue[1..] == [Buffer(x)];
    assert s.queue[1..][1..] == [];
    assert QueueBytes([Buffer(x)]) == x + QueueBytes([]);
    assert QueueBytes(s.queue[1..][1..]) == [];
  }

  // ----- A deferred close, as written and as intended --------------------------

  /** The send side after a completed send: the next head flushed, if any. */
  function AfterSend(q: seq<Out>): SendSide
  {
    var f := Flushed(q);
    SendSide(f.1.Some?, if f.1.Some? then f.1.value else [], f.0)
  }

  /** The send side, whether `close` was asked for, and whether the stream closed. */
  datatype Closer = Closer(side: SendSide, closeAsked: bool, closed: bool)

  /**
   * `handle_write` as the source writes it, when the socket took all of
   * the pending send: with a close pending the stream closes at once,
   * whatever is queued behind the send; otherwise `send_complete` pops
   * the head and flushes the rest.
   */
  function FullWriteAsWritten(c: Closer): Closer
    requires c.side.pending && c.side.queue != []
  {
    if c.closeAsked then Closer(SendSide(false, [], c.side.queue), true, true)
    else Closer(AfterSend(c.side.queue[1..]), false, false)
  }

  /**
   * The same write with the close waiting for the whole queue: the head
   * is popped and the rest flushed, and the stream closes when nothing is
   * left to send.
   */
  function FullWrite(c: Closer): (r: Closer)
    requires c.side.pending && c.side.queue != []
    ensures r.closeAsked == c.closeAsked
    ensures r.closed <==> c.closeAsked && !r.side.pending
  {
    var s := AfterSend(c.side.queue[1..]);
    Closer(s, c.closeAsked, c.closeAsked && !s.pending)
  }

  /**
   * With the close waiting for the queue, a full write puts the pending
   * octets on the wire and keeps the rest unsent in order; the stream
   * closes only once nothing is left unsent.
   */
  lemma FullWriteKeepsQueue(c: Closer)
    requires c.side.pending && c.side.queue != []
    ensures UnsentOf(c.side.pending, c.side.octets, c.side.queue)
         == c.side.octets + UnsentOf(FullWrite(c).side.pending, FullWrite(c).side.octets, FullWrite(c).side.queue)
    ensures FullWrite(c).closed ==> UnsentOf(FullWrite(c).side.pending, FullWrite(c).side.octets, FullWrite(c).side.queue) == []
  {
    FlushedKeepsOrder(c.side.queue[1..]);
  }

  /**
   * A message too large to be joined, sent on an idle stream and then
   * closed, as `send_response` does for `Connection: close`: its headers
   * are being sent and its body waits behind them. As written, the write
   * that completes the headers closes the stream, so the body never
   * reaches the wire. With the close waiting for the queue, the body is
   * sent next, and the write after that closes the stream with nothing
   * unsent.
   */
  lemma DeferredCloseAsWrittenDropsBody(m: Message, d: Bytes)
    requires !(0 <= m.length <= SMALLMESSAGE) && m.body == Octets(d) && m.serializedHeaders != []
    ensures var c := Closer(AfterSend(Entries(m, SMALLMESSAGE)), true, false);
      c.side.pending && c.side.octets == m.serializedHeaders && c.side.queue != []
      && UnsentOf(c.side.pending, c.side.octets, c.side.queue) == m.serializedHeaders + d
      && FullWriteAsWritten(c).closed && QueueBytes(c.side.queue[1..]) == d
      && FullWrite(c) == Closer(SendSide(true, d, [Buffer(d)]), true, false)
      && FullWrite(FullWrite(c)) == Closer(SendSide(false, [], []), true, true)
  {
    var h := m.serializedHeaders;
    var e := Entries(m, SMALLMESSAGE);
    assert e == [File([h]), Buffer(d)];
    assert e[0] == File([h]) && ReadChunk([h]) == h && AfterRead([h]) == [];
    var q := [Buffer(h), File([]), Buffer(d)];
    assert [Buffer(ReadChunk([h])), File(AfterRead([h]))] + e[1..] == q;
    assert Flushed(e) == (q, Some(h));
    assert q[1..] == [File([]), Buffer(d)] && q[1..][1..] == [Buffer(d)] && q[1..][1..][1..] == [];
    assert Flushed(q[1..]) == Flushed([Buffer(d)]);
    assert [Buffer(d)][1..] == [];
    assert EntryBytes(File([])) == [];
    assert QueueBytes([Buffer(d)]) == d + QueueBytes([]);
    assert QueueBytes(q[1..]) == EntryBytes(File([])) + QueueBytes([Buffer(d)]);
  }

  // ----- The stream ------------------------------------------------------------

  class HttpStream<R> {
    const sock: Stream.Stream
    const hooks: Hooks<R>

    /** The retained remainder of the received octets. */
    var incoming: Bytes
    var state: FState
    var left: int
    var role: R
    var outgoing: seq<Out>

    function Cur(): Engine<R>
      reads this
    {
      Engine(state, left, role)
    }

    ghost function Unsent(): Bytes
      reads this, sock
    {
      UnsentOf(sock.sendPending, sock.sendOctets, outgoing)
    }

    /** The stream is consistent, and a pending send is the head of the queue. */
    ghost predicate Valid()
      reads this, sock, sock.poller
    {
      sock.Valid()
      && (sock.sendPending && !sock.closeComplete ==> outgoing != [] && outgoing[0].Buffer?)
    }

    /**
     * `HttpStream(poller, parent, sock, conf)`: the parent's callbacks are
     * `hooks`, the socket is the results given to the event handlers, and
     * `conf` is not used.
     */
    constructor (poller: Stream.Poller, hooks: Hooks<R>, role: R, now: int)
      ensures Valid() && fresh(sock) && sock.poller == poller
      ensures this.hooks == hooks
      ensures Cur() == Engine(FirstLine, 0, role) && incoming == [] && outgoing == []
      ensures sock.Snapshot() == Stream.State(false, false, false, false, false, [], false, 0, 0, {})
    {
      sock := new Stream.Stream(poller, now);
      this.hooks := hooks;
      incoming := [];
      state := FirstLine;
      left := 0;
      this.role := role;
      outgoing := [];
    }

    /** `connection_made`: the first receive. */
    method ConnectionMade() returns (r: Stream.StartResult)
      requires Valid()
      modifies sock, sock.poller
      ensures Valid()
      ensures r == (if old(sock.Closing()) then Stream.Ignored
                    else if old(sock.recvPending) then Stream.AlreadyPending else Stream.Started)
      ensures sock.recvPending == (old(sock.recvPending) || r == Stream.Started)
    {
      r := sock.StartRecv();
    }

    /**
     * `connection_lost`: a body that runs to the end of the file ends
     * here; the remainder is dropped.
     */
    method ConnectionLost() returns (fault: Option<Fault>)
      requires Valid() && sock.closeComplete
      modifies this, sock, sock.poller
      decreases 0, 2
      ensures Valid() && sock.closeComplete && incoming == []
      ensures state == old(state) && left == old(left) && outgoing == old(outgoing)
      ensures sock.sendPending == old(sock.sendPending) && sock.recvPending == old(sock.recvPending)
      ensures old(sock.eof) && old(state) == Unbounded ==>
        var st := EndOfBody(hooks, old(Cur()), false);
        Cur() == st.e && fault == (if st.Fail? then Some(st.fault) else None)
        && (st.Next? && st.closed ==> sock.closePending)
      ensures !(old(sock.eof) && old(state) == Unbounded) ==>
        Cur() == old(Cur()) && fault == None && sock.Snapshot() == old(sock.Snapshot())
    {
      fault := None;
      if sock.eof && state == Unbounded {
        fault := GotEndOfBody();
      }
      incoming := [];
    }

    /**
     * `close`, with `connection_lost` run when the stream closes now.
     * The framing state is not affected.
     */
    method Close()
      requires Valid()
      modifies this, sock, sock.poller
      decreases if sock.closeComplete then 0 else 1, 0
      ensures Valid() && sock.closePending
      ensures Cur() == old(Cur()) && outgoing == old(outgoing)
      ensures sock.sendPending == old(sock.sendPending) && sock.recvPending == old(sock.recvPending)
      ensures old(sock.sendPending) || old(sock.closeComplete) ==>
        sock.Snapshot() == old(sock.Snapshot()).(closePending := true) && incoming == old(incoming)
      ensures !(old(sock.sendPending) || old(sock.closeComplete)) ==>
        sock.Snapshot() == Stream.Closed(old(sock.Snapshot()).(closePending := true)) && incoming == []
    {
      var up := sock.Close();
      if up.ConnectionLost? {
        var _ := ConnectionLost();
      }
    }

    /** The role's `got_end_of_body`. */
    method GotEndOfBody() returns (fault: Option<Fault>)
      requires Valid()
      modifies this, sock, sock.poller
      decreases if sock.closeComplete then 0 else 1, 1
      ensures Valid() && state == old(state) && left == old(left) && outgoing == old(outgoing)
      ensures incoming == [] || incoming == old(incoming)
      ensures sock.sendPending == old(sock.sendPending) && sock.recvPending == old(sock.recvPending)
      ensures var st := EndOfBody(hooks, old(Cur()), false);
        Cur() == st.e && fault == (if st.Fail? then Some(st.fault) else None)
        && (st.Next? ==> sock.Closing() == (old(sock.Closing()) || st.closed))
      ensures old(sock.closeComplete) ==> sock.closeComplete
      ensures EndOfBody(hooks, old(Cur()), false).Next? && EndOfBody(hooks, old(Cur()), false).closed ==> sock.closePending
    {
      var r := hooks.endOfBody(role);
      if r.None? {
        return Some(HookFailed);
      }
      role := r.value.role;
      if r.value.closed {
        Close();
      }
      fault := None;
    }

    /** `_got_line` in FIRSTLINE: the request or status line. */
    method GotFirstLine(line: string) returns (fault: Option<Fault>)
      requires Valid() && |line| > 0 && state == FirstLine
      modifies this
      ensures Valid() && outgoing == old(outgoing) && incoming == old(incoming)
      ensures var st := HttpFraming.GotLine(hooks, old(Cur()), line);
        Cur() == st.e && fault == (if st.Fail? then Some(st.fault) else None)
        && (st.Next? ==> !st.closed)
    {
      var v := PyStr.SplitMax(PyStr.Strip(line), 2);
      if |v| < 3 {
        return Some(ShortFirstLine);
      }
      var r := hooks.firstLine(role, v[0], v[1], v[2]);
      if r.None? {
        return Some(HookFailed);
      }
      role := r.value;
      state := Header;
      fault := None;
    }

    /** `_got_line` in HEADER: a header line, or the blank line that ends them. */
    method GotHeaderLine(line: string) returns (fault: Option<Fault>)
      requires Valid() && |line| > 0 && state == Header
      modifies this, sock, sock.poller
      ensures Valid() && outgoing == old(outgoing)
      ensures incoming == [] || incoming == old(incoming)
      ensures sock.sendPending == old(sock.sendPending) && sock.recvPending == old(sock.recvPending)
      ensures var st := HttpFraming.GotLine(hooks, old(Cur()), line);
        Cur() == st.e && fault == (if st.Fail? then Some(st.fault) else None)
        && (st.Next? ==> sock.Closing() == (old(sock.Closing()) || st.closed))
      ensures old(sock.closeComplete) ==> sock.closeComplete
    {
      if line[0] == ' ' || line[0] == '\t' {
        return Some(ContinuationHeader);
      }
      var t := PyStr.Strip(line);
      if t == [] {
        fault := EndOfHeadersLine(line);
        return;
      }
      var i := Find(t, ':', 0);
      if i < 0 {
        return Some(InvalidHeaderLine);
      }
      ghost var e := Cur();
      HttpFraming.HeaderColonStep(hooks, e, line, t, i);
      var r := hooks.header(role, PyStr.Strip(PyStr.Lower(t[..i])), PyStr.Strip(t[i + 1..]));
      if r.None? {
        return Some(HookFailed);
      }
      role := r.value;
      assert Cur() == HttpFraming.GotLine(hooks, e, line).e;
      return None;
    }

    /** The blank line that ends the headers: the role decides what follows. */
    method EndOfHeadersLine(line: string) returns (fault: Option<Fault>)
      requires Valid() && |line| > 0 && state == Header
      requires line[0] != ' ' && line[0] != '\t' && PyStr.Strip(line) == []
      modifies this, sock, sock.poller
      ensures Valid() && outgoing == old(outgoing)
      ensures incoming == [] || incoming == old(incoming)
      ensures sock.sendPending == old(sock.sendPending) && sock.recvPending == old(sock.recvPending)
      ensures var st := HttpFraming.GotLine(hooks, old(Cur()), line);
        Cur() == st.e && fault == (if st.Fail? then Some(st.fault) else None)
        && (st.Next? ==> sock.Closing() == (old(sock.Closing()) || st.closed))
      ensures old(sock.closeComplete) ==> sock.closeComplete
    {
      ghost var st := HttpFraming.GotLine(hooks, Cur(), line);
      HttpFraming.BlankHeaderStep(hooks, Cur(), line);
      var r := hooks.endOfHeaders(role);
      if r.None? {
        return Some(HookFailed);
      }
      state, left, role := r.value.state, r.value.left, r.value.role;
      if r.value.closed {
        Close();
      }
      fault := None;
      if state == Error {
        Close();
        assert st == Next(Cur(), true);
      } else if state == FirstLine {
        fault := GotEndOfBody();
      } else {
        assert st == Next(Cur(), r.value.closed);
      }
    }

    /** `_got_line` in CHUNK_LENGTH: the size line of a chunk, in hexadecimal. */
    method GotChunkLength(line: string) returns (fault: Option<Fault>)
      requires |line| > 0 && state == ChunkLength
      modifies this
      ensures outgoing == old(outgoing) && incoming == old(incoming)
      ensures var st := HttpFraming.GotLine(hooks, old(Cur()), line);
        Cur() == st.e && fault == (if st.Fail? then Some(st.fault) else None)
        && (st.Next? ==> !st.closed)
    {
      var v := PyStr.SplitWs(line);
      if v == [] {
        return Some(EmptyChunkLengthLine);
      }
      var n := PyStr.ParseInt16(v[0]);
      if n.None? {
        return Some(InvalidChunkLength);
      }
      fault := None;
      if n.value < 0 {
        fault := Some(NegativeChunkLength);
      } else if n.value == 0 {
        state := Trailer;
      } else {
        left := n.value;
        state := Chunk;
      }
    }

    /** `_got_line`: one line, in the current state. */
    method GotLine(line: string) returns (fault: Option<Fault>)
      requires Valid() && |line| > 0
      modifies this, sock, sock.poller
      ensures Valid() && outgoing == old(outgoing)
      ensures incoming == [] || incoming == old(incoming)
      ensures sock.sendPending == old(sock.sendPending) && sock.recvPending == old(sock.recvPending)
      ensures var st := HttpFraming.GotLine(hooks, old(Cur()), line);
        Cur() == st.e && fault == (if st.Fail? then Some(st.fault) else None)
        && (st.Next? ==> sock.Closing() == (old(sock.Closing()) || st.closed))
      ensures old(sock.closeComplete) ==> sock.closeComplete
    {
      fault := None;
      if state == FirstLine {
        fault := GotFirstLine(line);
      } else if state == Header {
        fault := GotHeaderLine(line);
      } else if state == ChunkLength {
        fault := GotChunkLength(line);
      } else if state == ChunkEnd {
        if PyStr.Strip(line) != [] {
          return Some(InvalidChunkEnd);
        }
        state := ChunkLength;
      } else if state == Trailer {
        if PyStr.Strip(line) == [] {
          state := FirstLine;
          fault := GotEndOfBody();
        }
      } else {
        fault := Some(UnexpectedLine);
      }
    }

    /** `_got_piece`: one body piece, `_left` already reduced by its length. */
    method GotPiece(piece: Bytes) returns (fault: Option<Fault>)
      requires Valid()
      modifies this, sock, sock.poller
      ensures Valid() && outgoing == old(outgoing)
      ensures incoming == [] || incoming == old(incoming)
      ensures sock.sendPending == old(sock.sendPending) && sock.recvPending == old(sock.recvPending)
      ensures var st := HttpFraming.GotPiece(hooks, old(Cur()), piece);
        Cur() == st.e && fault == (if st.Fail? then Some(st.fault) else None)
        && (st.Next? ==> sock.Closing() == (old(sock.Closing()) || st.closed))
      ensures old(sock.closeComplete) ==> sock.closeComplete
    {
      fault := None;
      if !(state == Bounded || state == Unbounded || state == Chunk) {
        return Some(UnexpectedPiece);
      }
      var r := hooks.piece(role, piece);
      if r.None? {
        return Some(HookFailed);
      }
      role := r.value;
      if state == Bounded {
        if left == 0 {
          state := FirstLine;
          fault := GotEndOfBody();
        }
      } else if state == Unbounded {
        left := Stream.MAXBUF;
      } else if left == 0 {
        state := ChunkEnd;
      }
    }

    /**
     * One pass of `recv_complete`'s loop while `_left > 0`: the next
     * `min(_left, available)` octets are a piece. The outcome of scanning
     * from `offset` is that of the rest from `next`, unless the pass
     * raised or the stream is closing.
     */
    method TakePiece(buf: Bytes, offset: nat) returns (next: nat, fault: Option<Fault>)
      requires Valid() && offset < |buf| && left > 0
      modifies this, sock, sock.poller
      ensures offset < next <= |buf|
      ensures Valid() && outgoing == old(outgoing) && (incoming == [] || incoming == old(incoming))
      ensures sock.sendPending == old(sock.sendPending) && sock.recvPending == old(sock.recvPending)
      ensures Passed(hooks, Scan(hooks, old(Cur()), buf[offset..], old(sock.Closing()), EveryLine),
                     Cur(), sock.Closing(), fault, buf[next..])
    {
      ghost var d := buf[offset..];
      var count := Min(left, |buf| - offset);
      var piece := buf[offset..offset + count];
      assert d[..count] == piece && d[count..] == buf[offset + count..];
      left := left - count;
      next := offset + count;
      ghost var e1 := Cur();
      fault := GotPiece(piece);
      HttpFraming.PiecePassed(hooks, old(Cur()), buf[offset..], old(sock.Closing()), count, e1, piece,
                              Cur(), sock.Closing(), fault, buf[next..]);
    }

    /** The line that ends at the newline at `i` goes to `_got_line`. */
    method PassLine(buf: Bytes, offset: nat, i: nat) returns (next: nat, fault: Option<Fault>)
      requires Valid() && offset <= i < |buf| && left == 0
      requires i == Find(buf, NL, offset) && i - offset <= MAXLINE
      modifies this, sock, sock.poller
      ensures next == i + 1
      ensures Valid() && outgoing == old(outgoing) && (incoming == [] || incoming == old(incoming))
      ensures sock.sendPending == old(sock.sendPending) && sock.recvPending == old(sock.recvPending)
      ensures Passed(hooks, Scan(hooks, old(Cur()), buf[offset..], old(sock.Closing()), EveryLine),
                     Cur(), sock.Closing(), fault, buf[next..])
    {
      next := i + 1;
      ghost var d := buf[offset..];
      FindFrom(buf, NL, offset);
      var line := buf[offset..i + 1];
      assert d[..i - offset + 1] == line && d[i - offset + 1..] == buf[i + 1..];
      var text := Latin1(line);
      fault := GotLine(text);
      HttpFraming.LinePassed(hooks, old(Cur()), buf[offset..], i - offset, old(sock.Closing()), text,
                             Cur(), sock.Closing(), fault, buf[next..]);
    }

    /**
     * No newline within reach: the octets wait for more, or raise when
     * more than MAXLINE of them precede the newline or wait.
     */
    method NoLine(buf: Bytes, offset: nat, i: int) returns (next: nat, fault: Option<Fault>, wait: bool)
      requires Valid() && offset < |buf| && left == 0
      requires i == Find(buf, NL, offset) && (i == -1 || i - offset > MAXLINE)
      ensures wait ==> next == offset && fault == None
      ensures wait ==> Scan(hooks, Cur(), buf[offset..], sock.Closing(), EveryLine) == Waiting(Cur(), buf[offset..])
      ensures !wait ==> next == offset + 1 && fault == Some(LineTooLong)
      ensures !wait ==> Passed(hooks, Scan(hooks, Cur(), buf[offset..], sock.Closing(), EveryLine),
                               Cur(), sock.Closing(), fault, buf[next..])
    {
      FindFrom(buf, NL, offset);
      ScanNoLine(hooks, Cur(), buf[offset..], sock.Closing());
      if i == -1 && |buf| - offset <= MAXLINE {
        return offset, None, true;
      }
      return offset + 1, Some(LineTooLong), false;
    }

    /**
     * One pass of `recv_complete`'s loop while `_left == 0`: the octets up
     * to and including the next newline are a line. With no newline the
     * loop waits (`wait`), or raises if more than MAXLINE octets wait.
     */
    method TakeLine(buf: Bytes, offset: nat) returns (next: nat, fault: Option<Fault>, wait: bool)
      requires Valid() && offset < |buf| && left == 0
      modifies this, sock, sock.poller
      ensures wait ==> next == offset && fault == None && Cur() == old(Cur()) && sock.Closing() == old(sock.Closing())
                       && Scan(hooks, old(Cur()), buf[offset..], old(sock.Closing()), EveryLine)
                          == Waiting(Cur(), buf[offset..])
      ensures !wait ==> offset < next <= |buf|
      ensures Valid() && outgoing == old(outgoing) && (incoming == [] || incoming == old(incoming))
      ensures sock.sendPending == old(sock.sendPending) && sock.recvPending == old(sock.recvPending)
      ensures !wait ==> Passed(hooks, Scan(hooks, old(Cur()), buf[offset..], old(sock.Closing()), EveryLine),
                               Cur(), sock.Closing(), fault, buf[next..])
    {
      var i := Find(buf, NL, offset);
      if i == -1 || i - offset > MAXLINE {
        next, fault, wait := NoLine(buf, offset, i);
        assert !wait ==> Passed(hooks, Scan(hooks, old(Cur()), buf[offset..], old(sock.Closing()), EveryLine),
                                Cur(), sock.Closing(), fault, buf[next..]);
        return;
      }
      wait := false;
      next, fault := PassLine(buf, offset, i);
      assert Passed(hooks, Scan(hooks, old(Cur()), buf[offset..], old(sock.Closing()), EveryLine),
                    Cur(), sock.Closing(), fault, buf[next..]);
    }

    /**
     * `recv_complete`: joins the new octets to the remainder and hands
     * out lines and pieces until the octets run out, a callback closes
     * the stream or something raises; then keeps the remainder and asks
     * for more.
     *
     * A complete line longer than MAXLINE raises here, as a remainder
     * that long does.
     */
    method RecvComplete(data: Bytes) returns (fault: Option<Fault>)
      requires Valid() && |data| > 0 && !sock.recvPending
      modifies this, sock, sock.poller
      ensures Valid() && outgoing == old(outgoing) && sock.sendPending == old(sock.sendPending)
      ensures var o := Scan(hooks, old(Cur()), old(incoming) + data, old(sock.Closing()), EveryLine);
        Cur() == o.e
        && incoming == (if o.Waiting? then o.rest else [])
        && fault == (if o.Faulted? then Some(o.fault) else None)
        && (o.Waiting? ==> sock.recvPending == !sock.Closing())
        && (!o.Waiting? ==> !sock.recvPending)
        && (o.Stopped? ==> sock.Closing())
    {
      var buf := incoming + data;
      incoming := [];
      var offset := 0;
      ghost var o := Scan(hooks, Cur(), buf, sock.Closing(), EveryLine);
      assert buf[offset..] == buf;
      while offset < |buf|
        invariant 0 <= offset <= |buf|
        invariant Valid() && incoming == [] && !sock.recvPending
        invariant outgoing == old(outgoing) && sock.sendPending == old(sock.sendPending)
        invariant o == Scan(hooks, Cur(), buf[offset..], sock.Closing(), EveryLine)
        decreases |buf| - offset
      {
        if left > 0 {
          offset, fault := TakePiece(buf, offset);
        } else if left == 0 {
          var wait;
          offset, fault, wait := TakeLine(buf, offset);
          if wait {
            break;
          }
        } else {
          return Some(LeftNegative);
        }
        if fault.Some? {
          return;
        }
        if sock.Closing() {
          return None;
        }
      }
      if offset < |buf| {
        incoming := buf[offset..];
      }
      var _ := sock.StartRecv();
      fault := None;
    }

    /**
     * `_flush`, with the loop also stopping while the stream is closing:
     * nothing happens while a send is pending or a close was asked for,
     * and otherwise the queue is flushed as `Flushed` says.
     */
    method Flush()
      requires Valid()
      modifies this, sock, sock.poller
      ensures Valid() && Cur() == old(Cur()) && incoming == old(incoming)
      ensures sock.recvPending == old(sock.recvPending)
      ensures old(sock.sendPending) || old(sock.Closing()) ==>
        outgoing == old(outgoing) && sock.Snapshot() == old(sock.Snapshot())
      ensures !(old(sock.sendPending) || old(sock.Closing())) ==>
        var f := Flushed(old(outgoing));
        outgoing == f.0
        && sock.Snapshot() == (if f.1.Some? then old(sock.Snapshot()).(sendOctets := f.1.value, sendPending := true)
                               else old(sock.Snapshot()))
    {
      ghost var active := !sock.sendPending && !sock.Closing();
      while !sock.sendPending && !sock.Closing() && outgoing != []
        invariant Valid() && Cur() == old(Cur()) && incoming == old(incoming)
        invariant sock.Closing() == old(sock.Closing())
        invariant !active ==> outgoing == old(outgoing) && sock.Snapshot() == old(sock.Snapshot())
        invariant active && !sock.sendPending ==>
          Flushed(old(outgoing)) == Flushed(outgoing) && sock.Snapshot() == old(sock.Snapshot())
        invariant active && sock.sendPending ==>
          Flushed(old(outgoing)) == (outgoing, Some(sock.sendOctets))
          && sock.Snapshot() == old(sock.Snapshot()).(sendOctets := sock.sendOctets, sendPending := true)
        decreases if sock.sendPending then 0 else 1, |outgoing|
      {
        match outgoing[0]
        case File(c) =>
          var chunk := ReadChunk(c);
          if chunk != [] {
            outgoing := [Buffer(chunk), File(AfterRead(c))] + outgoing[1..];
            var _ := sock.StartSend(chunk);
          } else {
            outgoing := outgoing[1..];
          }
        case Buffer(d) =>
          var _ := sock.StartSend(d);
      }
    }

    /**
     * `send_message`: queues the message (joined when it is small) and
     * flushes; its octets go out after everything queued before.
     */
    method SendMessage(m: Message, small: int)
      requires Valid()
      modifies this, sock, sock.poller
      ensures Valid() && Cur() == old(Cur()) && incoming == old(incoming)
      ensures !sock.closeComplete ==> Unsent() == old(Unsent()) + QueueBytes(Entries(m, small))
      ensures sock.closePending == old(sock.closePending) && sock.closeComplete == old(sock.closeComplete)
      ensures var q := old(outgoing) + Entries(m, small);
        if old(sock.sendPending) || old(sock.Closing()) then outgoing == q
        else outgoing == Flushed(q).0
      ensures var q := old(outgoing) + Entries(m, small);
        sock.Snapshot() == (if old(sock.sendPending) || old(sock.Closing()) || Flushed(q).1.None? then old(sock.Snapshot())
                            else old(sock.Snapshot()).(sendOctets := Flushed(q).1.value, sendPending := true))
    {
      if !sock.closeComplete {
        UnsentAppend(sock.sendPending, sock.sendOctets, outgoing, Entries(m, small));
      }
      outgoing := outgoing + Entries(m, small);
      FlushedKeepsOrder(outgoing);
      Flush();
    }

    /** `send_complete`: the head was sent; the next entry is flushed. */
    method SendComplete()
      requires Valid() && outgoing != [] && !sock.sendPending
      modifies this, sock, sock.poller
      ensures Valid() && Cur() == old(Cur()) && incoming == old(incoming)
      ensures !sock.closeComplete ==> Unsent() == QueueBytes(old(outgoing)[1..])
      ensures if old(sock.Closing()) then outgoing == old(outgoing)[1..]
              else outgoing == Flushed(old(outgoing)[1..]).0
      ensures var q := old(outgoing)[1..];
        sock.Snapshot() == (if old(sock.Closing()) || Flushed(q).1.None? then old(sock.Snapshot())
                            else old(sock.Snapshot()).(sendOctets := Flushed(q).1.value, sendPending := true))
    {
      outgoing := outgoing[1..];
      FlushedKeepsOrder(outgoing);
      Flush();
    }

    /**
     * `handle_write`, given what the socket's `send` returned. The
     * octets written and the octets still to go out make up what was
     * to go out before, so the queue reaches the wire whole and in order.
     */
    method HandleWrite(result: Stream.SendResult) returns (written: Bytes, failure: Option<Failure>)
      requires Valid() && sock in sock.poller.writable
      modifies this, sock, sock.poller
      ensures Valid()
      ensures written == (if result.Sent? && result.count <= |old(sock.sendOctets)|
                          then old(sock.sendOctets)[..result.count] else [])
      ensures !sock.closeComplete ==> old(Unsent()) == written + Unsent()
      ensures result.SendError? ==> failure == Some(StreamFailed(Stream.SocketError))
      ensures result.Sent? && result.count > |old(sock.sendOctets)| ==>
        failure == Some(StreamFailed(Stream.SentMoreThanExpected))
      ensures result.Sent? && result.count == |old(sock.sendOctets)| && old(sock.closePending) ==>
        sock.closeComplete && outgoing == old(outgoing)
      ensures result.SendSoftError? || (result.Sent? && 0 < result.count <= |old(sock.sendOctets)|) ==>
        failure == None
    {
      var octets := sock.sendOctets;
      var up := sock.HandleWrite(result);
      written := if result.Sent? && result.count <= |octets| then octets[..result.count] else [];
      failure := None;
      if up == Stream.SendComplete {
        assert octets == written;
        SendComplete();
      } else if up.ConnectionLost? {
        var f := ConnectionLost();
        if f.Some? {
          failure := Some(FramingFailed(f.value));
        }
      } else if up.Raised? {
        failure := Some(StreamFailed(up.error));
      } else if result.Sent? && 0 < result.count < |octets| {
        assert octets == written + sock.sendOctets;
      }
    }

    /**
     * `handle_read`, given what the socket's `recv` returned: data goes
     * through `recv_complete`; the end of the file and a reset close the
     * stream, which ends a body that runs to the end of the file.
     */
    method HandleRead(result: Stream.RecvResult) returns (failure: Option<Failure>)
      requires Valid() && sock in sock.poller.readable
      requires result.Received? ==> |result.octets| <= Stream.MAXBUF
      modifies this, sock, sock.poller
      ensures Valid()
      ensures result.Received? && |result.octets| > 0 ==>
        var o := Scan(hooks, old(Cur()), old(incoming) + result.octets, old(sock.Closing()), EveryLine);
        Cur() == o.e
        && incoming == (if o.Waiting? then o.rest else [])
        && failure == (if o.Faulted? then Some(FramingFailed(o.fault)) else None)
        && (o.Waiting? ==> sock.recvPending == !sock.Closing())
      ensures result == Stream.Received([]) || result.RecvReset? ==>
        sock.closeComplete && incoming == []
        && (result == Stream.Received([]) && old(state) == Unbounded ==>
              Cur() == EndOfBody(hooks, old(Cur()), false).e)
        && (!(result == Stream.Received([]) && old(state) == Unbounded) ==> Cur() == old(Cur()))
      ensures result.RecvSoftError? ==> Cur() == old(Cur()) && incoming == old(incoming) && failure == None
      ensures result.RecvError? ==> failure == Some(StreamFailed(Stream.SocketError))
    {
      var up := sock.HandleRead(result);
      failure := None;
      if up.RecvComplete? {
        var f := RecvComplete(up.octets);
        if f.Some? {
          failure := Some(FramingFailed(f.value));
        }
      } else if up.ConnectionLost? {
        var f := ConnectionLost();
        if f.Some? {
          failure := Some(FramingFailed(f.value));
        }
      } else if up.Raised? {
        failure := Some(StreamFailed(up.error));
      }
    }
  }
}
