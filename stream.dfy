/**
 * A non-blocking byte stream over a socket: at most one receive and one
 * send outstanding, a deferred close that waits for a pending send, and
 * the functions to run when the stream closes.
 *
 * The socket is not modelled: what `recv` and `send` returned is passed
 * to `HandleRead` and `HandleWrite` as a value.  The owner's callbacks
 * (`recv_complete`, `send_complete`, `connection_lost`) are returned as an
 * `Upcall` that the owner then runs.
 */
module Stream {

  import opened Common
  import Pollable

  /** The most octets one `recv` asks for: 1 << 18. */
  const MAXBUF: nat := 262144

  /** A function registered with `atclose`, identified by a number. */
  type Callback = nat

  /**
   * The poller's registries of streams waiting to read and to write; the
   * poller itself is not part of this model.
   */
  class Poller {
    ghost var readable: set<object>
    ghost var writable: set<object>

    constructor ()
      ensures readable == {} && writable == {}
    {
      readable := {};
      writable := {};
    }

    ghost method SetReadable(p: object)
      modifies this
      ensures readable == old(readable) + {p} && writable == old(writable)
    {
      readable := readable + {p};
    }

    ghost method UnsetReadable(p: object)
      modifies this
      ensures readable == old(readable) - {p} && writable == old(writable)
    {
      readable := readable - {p};
    }

    ghost method SetWritable(p: object)
      modifies this
      ensures writable == old(writable) + {p} && readable == old(readable)
    {
      writable := writable + {p};
    }

    ghost method UnsetWritable(p: object)
      modifies this
      ensures writable == old(writable) - {p} && readable == old(readable)
    {
      writable := writable - {p};
    }
  }

  /** What the socket's `recv` did. `Received([])` is the end of file. */
  datatype RecvResult = Received(octets: Bytes) | RecvSoftError | RecvReset | RecvError

  /** What the socket's `send` did. */
  datatype SendResult = Sent(count: nat) | SendSoftError | SendReset | SendError

  datatype StartResult = Started | Ignored | AlreadyPending

  datatype StreamError = SocketError | SentMoreThanExpected

  /** What the stream asks its owner to do after an event. */
  datatype Upcall =
    | NoUpcall
    | RecvComplete(octets: Bytes)
    | SendComplete
      /** `handle_close` ran now; `fired` lists the `atclose` functions it called. */
    | ConnectionLost(fired: seq<Callback>)
    | Raised(error: StreamError)

  /** All the stream's variables, so contracts can say which of them changed. */
  datatype State = State(
    eof: bool, rst: bool,
    closeComplete: bool, closePending: bool,
    recvPending: bool, sendOctets: Bytes, sendPending: bool,
    bytesRecvTot: nat, bytesSentTot: nat,
    atclosev: set<Callback>)

  /** `fired` calls every function of `s` exactly once. */
  predicate FiredAll(fired: seq<Callback>, s: set<Callback>)
  {
    (forall i :: 0 <= i < |fired| ==> fired[i] in s)
    && (forall f :: f in s ==> f in fired)
    && (forall i, j :: 0 <= i < j < |fired| ==> fired[i] != fired[j])
  }

  /** The state after `handle_close` ran for the first time. */
  function Closed(s: State): State
  {
    s.(closeComplete := true, sendOctets := [], atclosev := {})
  }

  class Stream {
    const poller: Poller
    const timer: Pollable.Pollable

    var eof: bool
    var rst: bool
    var closeComplete: bool
    var closePending: bool
    var recvPending: bool
    /** The octets of the pending send; empty once the stream is closed. */
    var sendOctets: Bytes
    var sendPending: bool
    var bytesRecvTot: nat
    var bytesSentTot: nat
    var atclosev: set<Callback>

    function Snapshot(): State
      reads this
    {
      State(eof, rst, closeComplete, closePending, recvPending, sendOctets,
            sendPending, bytesRecvTot, bytesSentTot, atclosev)
    }

    /**
     * The poller watches the stream for reading exactly while a receive is
     * pending, for writing exactly while a send is pending, and neither
     * once the stream is closed; end of file and reset close the stream.
     */
    ghost predicate Valid()
      reads this, poller
    {
      (this in poller.readable <==> recvPending && !closeComplete)
      && (this in poller.writable <==> sendPending && !closeComplete)
      && (eof ==> closeComplete)
      && (rst ==> closeComplete)
    }

    predicate Closing()
      reads this
    {
      closeComplete || closePending
    }

    constructor (poller: Poller, now: int)
      ensures this.poller == poller && fresh(timer)
      ensures timer.created == now && timer.watchdog == Pollable.WATCHDOG
      ensures Snapshot() == State(false, false, false, false, false, [], false, 0, 0, {})
    {
      this.poller := poller;
      timer := new Pollable.Pollable(now);
      eof := false;
      rst := false;
      closeComplete := false;
      closePending := false;
      recvPending := false;
      sendOctets := [];
      sendPending := false;
      bytesRecvTot := 0;
      bytesSentTot := 0;
      atclosev := {};
    }

    /** Registers `f` to be called when the stream closes. */
    method AtClose(f: Callback)
      modifies this
      ensures Snapshot() == old(Snapshot()).(atclosev := old(atclosev) + {f})
    {
      atclosev := atclosev + {f};
    }

    method UnregisterAtClose(f: Callback)
      modifies this
      ensures Snapshot() == old(Snapshot()).(atclosev := old(atclosev) - {f})
    {
      atclosev := atclosev - {f};
    }

    /**
     * `handle_close`: runs once. It marks the stream closed, drops the
     * pending octets and calls every `atclose` function once, errors
     * swallowed; the owner's `connection_lost` is the returned upcall.
     */
    method HandleClose() returns (up: Upcall)
      modifies this
      ensures old(closeComplete) ==> up == NoUpcall && Snapshot() == old(Snapshot())
      ensures !old(closeComplete) ==> up.ConnectionLost? && FiredAll(up.fired, old(atclosev))
      ensures !old(closeComplete) ==> Snapshot() == Closed(old(Snapshot()))
    {
      if closeComplete {
        return NoUpcall;
      }
      closeComplete := true;
      sendOctets := [];
      var pending := atclosev;
      var fired: seq<Callback> := [];
      while pending != {}
        invariant pending <= old(atclosev)
        invariant forall i :: 0 <= i < |fired| ==> fired[i] in old(atclosev) && fired[i] !in pending
        invariant forall f :: f in old(atclosev) ==> f in pending || f in fired
        invariant forall i, j :: 0 <= i < j < |fired| ==> fired[i] != fired[j]
        decreases pending
      {
        var f :| f in pending;
        fired := fired + [f];
        pending := pending - {f};
      }
      atclosev := {};
      up := ConnectionLost(fired);
    }

    /** `poller.close(stream)`: the poller forgets the stream, then `handle_close` runs. */
    method PollerClose() returns (up: Upcall)
      modifies this, poller
      ensures poller.readable == old(poller.readable) - {this}
      ensures poller.writable == old(poller.writable) - {this}
      ensures old(closeComplete) ==> up == NoUpcall && Snapshot() == old(Snapshot())
      ensures !old(closeComplete) ==> up.ConnectionLost? && FiredAll(up.fired, old(atclosev))
      ensures !old(closeComplete) ==> Snapshot() == Closed(old(Snapshot()))
    {
      poller.UnsetReadable(this);
      poller.UnsetWritable(this);
      up := HandleClose();
    }

    /**
     * `close`: asks for the stream to close. While a send is pending the
     * close waits for it; otherwise the stream closes now.
     */
    method Close() returns (up: Upcall)
      requires Valid()
      modifies this, poller
      ensures Valid() && closePending
      ensures old(sendPending) || old(closeComplete) ==>
        up == NoUpcall && Snapshot() == old(Snapshot()).(closePending := true)
        && poller.readable == old(poller.readable) && poller.writable == old(poller.writable)
      ensures !(old(sendPending) || old(closeComplete)) ==>
        up.ConnectionLost? && FiredAll(up.fired, old(atclosev))
        && Snapshot() == Closed(old(Snapshot()).(closePending := true))
        && poller.readable == old(poller.readable) - {this}
        && poller.writable == old(poller.writable)
    {
      closePending := true;
      if sendPending || closeComplete {
        return NoUpcall;
      }
      up := PollerClose();
    }

    /** `start_recv`: ignored while closing, refused while a receive is pending. */
    method StartRecv() returns (r: StartResult)
      requires Valid()
      modifies this, poller
      ensures Valid()
      ensures r == (if old(Closing()) then Ignored
                    else if old(recvPending) then AlreadyPending else Started)
      ensures Snapshot() == if r == Started then old(Snapshot()).(recvPending := true)
                            else old(Snapshot())
      ensures poller.readable == if r == Started then old(poller.readable) + {this}
                                 else old(poller.readable)
      ensures poller.writable == old(poller.writable)
    {
      if closeComplete || closePending {
        return Ignored;
      }
      if recvPending {
        return AlreadyPending;
      }
      recvPending := true;
      poller.SetReadable(this);
      r := Started;
    }

    /** `start_send`: ignored while closing, refused while a send is pending. */
    method StartSend(octets: Bytes) returns (r: StartResult)
      requires Valid()
      modifies this, poller
      ensures Valid()
      ensures r == (if old(Closing()) then Ignored
                    else if old(sendPending) then AlreadyPending else Started)
      ensures Snapshot() == if r == Started then old(Snapshot()).(sendOctets := octets, sendPending := true)
                            else old(Snapshot())
      ensures poller.writable == if r == Started then old(poller.writable) + {this}
                                 else old(poller.writable)
      ensures poller.readable == old(poller.readable)
    {
      if closeComplete || closePending {
        return Ignored;
      }
      if sendPending {
        return AlreadyPending;
      }
      sendOctets := octets;
      sendPending := true;
      poller.SetWritable(this);
      r := Started;
    }

    /**
     * `handle_read`, given what `recv(MAXBUF)` returned: soft errors are
     * retried later, a reset or the end of file closes the stream, any
     * other error propagates, and data completes the pending receive.
     */
    method HandleRead(result: RecvResult) returns (up: Upcall)
      requires Valid() && this in poller.readable
      requires result.Received? ==> |result.octets| <= MAXBUF
      modifies this, poller
      ensures Valid()
      ensures result.RecvSoftError? || result.RecvError? ==>
        Snapshot() == old(Snapshot()) && poller.readable == old(poller.readable)
        && poller.writable == old(poller.writable)
        && up == (if result.RecvError? then Raised(SocketError) else NoUpcall)
      ensures result.Received? && |result.octets| > 0 ==>
        up == RecvComplete(result.octets)
        && Snapshot() == old(Snapshot()).(recvPending := false,
                                          bytesRecvTot := old(bytesRecvTot) + |result.octets|)
        && poller.readable == old(poller.readable) - {this}
        && poller.writable == old(poller.writable)
      ensures result == Received([]) ==>
        up.ConnectionLost? && FiredAll(up.fired, old(atclosev))
        && Snapshot() == Closed(old(Snapshot()).(eof := true))
      ensures result.RecvReset? ==>
        up.ConnectionLost? && FiredAll(up.fired, old(atclosev))
        && Snapshot() == Closed(old(Snapshot()).(rst := true))
      ensures result.RecvReset? || result == Received([]) ==>
        poller.readable == old(poller.readable) - {this}
        && poller.writable == old(poller.writable) - {this}
    {
      match result
      case RecvSoftError =>
        up := NoUpcall;
      case RecvError =>
        up := Raised(SocketError);
      case RecvReset =>
        rst := true;
        up := PollerClose();
      case Received(octets) =>
        if |octets| > 0 {
          bytesRecvTot := bytesRecvTot + |octets|;
          recvPending := false;
          poller.UnsetReadable(this);
          up := RecvComplete(octets);
        } else {
          eof := true;
          up := PollerClose();
        }
    }

    /**
     * `handle_write`, given what `send(sendOctets)` returned. A partial
     * write keeps the rest for the next event, a complete write ends the
     * send (and resumes a deferred close), a socket claiming more than it
     * was given is an error, and zero octets of a non-empty buffer is
     * taken as the end of file.
     *
     * A zero-octet write of an empty buffer is handled like any other
     * complete write: the send ends before `send_complete` runs.
     */
    method HandleWrite(result: SendResult) returns (up: Upcall)
      requires Valid() && this in poller.writable
      modifies this, poller
      ensures Valid()
      ensures result.SendSoftError? || result.SendError? ==>
        Snapshot() == old(Snapshot()) && poller.readable == old(poller.readable)
        && poller.writable == old(poller.writable)
        && up == (if result.SendError? then Raised(SocketError) else NoUpcall)
      ensures result.SendReset? ==>
        up.ConnectionLost? && FiredAll(up.fired, old(atclosev))
        && Snapshot() == Closed(old(Snapshot()).(rst := true))
        && poller.readable == old(poller.readable) - {this}
        && poller.writable == old(poller.writable) - {this}
      ensures result.Sent? && result.count == |old(sendOctets)| && !old(closePending) ==>
        up == SendComplete
        && Snapshot() == old(Snapshot()).(sendPending := false,
                                          bytesSentTot := old(bytesSentTot) + result.count)
        && poller.readable == old(poller.readable)
        && poller.writable == old(poller.writable) - {this}
      ensures result.Sent? && result.count == |old(sendOctets)| && old(closePending) ==>
        up.ConnectionLost? && FiredAll(up.fired, old(atclosev))
        && Snapshot() == Closed(old(Snapshot()).(sendPending := false,
                                                 bytesSentTot := old(bytesSentTot) + result.count))
        && poller.readable == old(poller.readable) - {this}
        && poller.writable == old(poller.writable) - {this}
      ensures result.Sent? && 0 < result.count < |old(sendOctets)| ==>
        up == NoUpcall
        && Snapshot() == old(Snapshot()).(sendOctets := old(sendOctets)[result.count..],
                                          bytesSentTot := old(bytesSentTot) + result.count)
        && poller.readable == old(poller.readable)
        && poller.writable == old(poller.writable)
      ensures result.Sent? && result.count > |old(sendOctets)| ==>
        up == Raised(SentMoreThanExpected)
        && Snapshot() == old(Snapshot()).(bytesSentTot := old(bytesSentTot) + result.count)
        && poller.readable == old(poller.readable)
        && poller.writable == old(poller.writable)
      ensures result == Sent(0) && |old(sendOctets)| > 0 ==>
        up.ConnectionLost? && FiredAll(up.fired, old(atclosev))
        && Snapshot() == Closed(old(Snapshot()).(eof := true))
        && poller.readable == old(poller.readable) - {this}
        && poller.writable == old(poller.writable) - {this}
    {
      match result
      case SendSoftError =>
        up := NoUpcall;
      case SendError =>
        up := Raised(SocketError);
      case SendReset =>
        rst := true;
        up := PollerClose();
      case Sent(count) =>
        if count > 0 {
          bytesSentTot := bytesSentTot + count;
        }
        if count == |sendOctets| {
          sendPending := false;
          poller.UnsetWritable(this);
          if !closePending {
            up := SendComplete;
          } else {
            up := PollerClose();
          }
        } else if 0 < count < |sendOctets| {
          sendOctets := sendOctets[count..];
          up := NoUpcall;
        } else if count > |sendOctets| {
          up := Raised(SentMoreThanExpected);
        } else {
          eof := true;
          up := PollerClose();
        }
    }
  }
}
