/**
 * The receive side of an HTTP/1.x stream as a pure state machine: octets
 * are cut into lines and fixed-length pieces, lines drive the framing
 * states (request or status line, headers, chunked transfer coding with
 * its trailer), and pieces carry the body.
 *
 * What the role on top does with each line or piece (the client and
 * server streams) is given as `Hooks`: functions from the role's state
 * to its new state, `None` when the role's callback raises.
 */
module HttpFraming {

  import opened Common
  import opened PyStr
  import Stream

  /** Longest line (without its newline) the engine accepts: 1 << 15. */
  const MAXLINE: nat := 32768

  datatype FState =
    Idle | Bounded | Unbounded | Chunk | ChunkEnd | FirstLine | Header | ChunkLength | Trailer | Error

  /** Why scanning stopped with an exception. */
  datatype Fault =
    | LineTooLong
    | LeftNegative
    | ShortFirstLine        // fewer than three fields: the IndexError of `vector[2]`
    | ContinuationHeader
    | InvalidHeaderLine
    | EmptyChunkLengthLine
    | InvalidChunkLength    // the ValueError of `int(_, 16)`
    | NegativeChunkLength
    | InvalidChunkEnd
    | UnexpectedLine
    | UnexpectedPiece
    | HookFailed            // a callback of the role raised

  /** What `got_end_of_headers` decides: the next state and `_left`. */
  datatype Headers<R> = Headers(role: R, state: FState, left: int, closed: bool)

  /** A callback's new role state and whether it called `close()`. */
  datatype Reply<R> = Reply(role: R, closed: bool)

  datatype Hooks<!R> = Hooks(
    firstLine: (R, string, string, string) -> Option<R>,
    header: (R, string, string) -> Option<R>,
    endOfHeaders: R -> Option<Headers<R>>,
    piece: (R, Bytes) -> Option<R>,
    endOfBody: R -> Option<Reply<R>>)

  /** The engine's variables: `_state`, `_left` and the role's state. */
  datatype Engine<R> = Engine(state: FState, left: int, role: R)

  /** One line or piece handled: the new engine and whether `close()` was called. */
  datatype Step<R> = Next(e: Engine<R>, closed: bool) | Fail(e: Engine<R>, fault: Fault)

  function EndOfBody<R>(h: Hooks<R>, e: Engine<R>, closed: bool): Step<R>
  {
    match h.endOfBody(e.role)
    case None => Fail(e, HookFailed)
    case Some(rep) => Next(e.(role := rep.role), closed || rep.closed)
  }

  /** `_got_line`: what one line does in each state. */
  function GotLine<R>(h: Hooks<R>, e: Engine<R>, line: string): Step<R>
    requires |line| > 0
  {
    match e.state
    case FirstLine =>
      var v := SplitMax(Strip(line), 2);
      if |v| < 3 then Fail(e, ShortFirstLine)
      else (match h.firstLine(e.role, v[0], v[1], v[2])
            case None => Fail(e, HookFailed)
            case Some(r) => Next(e.(state := Header, role := r), false))
    case Header =>
      if line[0] == ' ' || line[0] == '\t' then Fail(e, ContinuationHeader)
      else
        var t := Strip(line);
        if t != [] then
          var i := Find(t, ':', 0);
          if i < 0 then Fail(e, InvalidHeaderLine)
          else (match h.header(e.role, Strip(Lower(t[..i])), Strip(t[i + 1..]))
                case None => Fail(e, HookFailed)
                case Some(r) => Next(e.(role := r), false))
        else (match h.endOfHeaders(e.role)
              case None => Fail(e, HookFailed)
              case Some(hd) =>
                var e1 := Engine(hd.state, hd.left, hd.role);
                if hd.state == Error then Next(e1, true)
                else if hd.state == FirstLine then EndOfBody(h, e1, hd.closed)
                else Next(e1, hd.closed))
    case ChunkLength =>
      var v := SplitWs(line);
      if v == [] then Fail(e, EmptyChunkLengthLine)
      else (match ParseInt16(v[0])
            case None => Fail(e, InvalidChunkLength)
            case Some(n) =>
              if n < 0 then Fail(e, NegativeChunkLength)
              else if n == 0 then Next(e.(state := Trailer), false)
              else Next(e.(state := Chunk, left := n), false))
    case ChunkEnd =>
      if Strip(line) != [] then Fail(e, InvalidChunkEnd)
      else Next(e.(state := ChunkLength), false)
    case Trailer =>
      if Strip(line) == [] then EndOfBody(h, e.(state := FirstLine), false)
      else Next(e, false)
    case _ => Fail(e, UnexpectedLine)
  }

  /** `_got_piece`, once `_left` has been reduced by the piece's length. */
  function GotPiece<R>(h: Hooks<R>, e: Engine<R>, piece: Bytes): Step<R>
  {
    if !(e.state == Bounded || e.state == Unbounded || e.state == Chunk) then
      Fail(e, UnexpectedPiece)
    else match h.piece(e.role, piece)
      case None => Fail(e, HookFailed)
      case Some(r) =>
        var e1 := e.(role := r);
        if e.state == Bounded then
          if e.left == 0 then EndOfBody(h, e1.(state := FirstLine), false) else Next(e1, false)
        else if e.state == Unbounded then Next(e1.(left := Stream.MAXBUF), false)
        else if e.left == 0 then Next(e1.(state := ChunkEnd), false)
        else Next(e1, false)
  }

  /**
   * How long lines are checked. `RemainderOnly` is the check as the source
   * writes it: only octets retained without a newline are measured.
   * `EveryLine` also refuses a complete line longer than MAXLINE.
   */
  datatype LineCap = RemainderOnly | EveryLine

  /**
   * The result of scanning octets: waiting for more with a remainder,
   * stopped because `close()` was called, or an exception.
   */
  datatype Outcome<R> = Waiting(e: Engine<R>, rest: Bytes) | Stopped(e: Engine<R>) | Faulted(e: Engine<R>, fault: Fault)

  /**
   * The loop of `recv_complete` over `data` (the remainder already joined
   * with the new fragment); `closing` is whether the stream was closing
   * when it started.
   */
  function Scan<R>(h: Hooks<R>, e: Engine<R>, data: Bytes, closing: bool, cap: LineCap): Outcome<R>
    decreases |data|, 0
  {
    if data == [] then Waiting(e, [])
    else if e.left > 0 then
      var count := Min(e.left, |data|);
      After(h, GotPiece(h, e.(left := e.left - count), data[..count]), data[count..], closing, cap)
    else if e.left == 0 then
      var i := Find(data, NL, 0);
      if i == -1 then
        if |data| > MAXLINE then Faulted(e, LineTooLong) else Waiting(e, data)
      else if cap == EveryLine && i > MAXLINE then Faulted(e, LineTooLong)
      else After(h, GotLine(h, e, Latin1(data[..i + 1])), data[i + 1..], closing, cap)
    else Faulted(e, LeftNegative)
  }

  /** After one step: stop on an exception or a close, else go on with the rest. */
  function After<R>(h: Hooks<R>, s: Step<R>, rest: Bytes, closing: bool, cap: LineCap): Outcome<R>
    decreases |rest|, 1
  {
    match s
    case Fail(e, f) => Faulted(e, f)
    case Next(e, closed) => if closing || closed then Stopped(e) else Scan(h, e, rest, false, cap)
  }

  /**
   * How one pass of the `recv_complete` loop relates the scan of the
   * octets before it to the state after it: an exception, a stop on
   * close, or the scan of the octets still to go.
   */
  ghost predicate Passed<R>(h: Hooks<R>, o: Outcome<R>, e: Engine<R>, closing: bool, fault: Option<Fault>, rest: Bytes)
  {
    (fault.Some? ==> o == Faulted(e, fault.value))
    && (fault.None? && closing ==> o == Stopped(e))
    && (fault.None? && !closing ==> o == Scan(h, e, rest, false, EveryLine))
  }

  /** The next `recv_complete`: more octets after a waiting outcome. */
  function Feed<R>(h: Hooks<R>, o: Outcome<R>, more: Bytes, cap: LineCap): Outcome<R>
  {
    match o
    case Waiting(e, rest) => Scan(h, e, rest + more, false, cap)
    case _ => o
  }

  /** Equal outcomes, except that where both raised only the reason is compared. */
  ghost predicate Same<R>(x: Outcome<R>, y: Outcome<R>)
  {
    x == y || (x.Faulted? && y.Faulted? && x.fault == y.fault)
  }

  // ----- Properties of one scan ---------------------------------------------

  /**
   * A piece is exactly `min(_left, available)` octets from the front of
   * the data, and `_left` drops by that amount.
   */
  lemma PieceTaken<R>(h: Hooks<R>, e: Engine<R>, data: Bytes, closing: bool, cap: LineCap)
    requires data != [] && e.left > 0
    ensures var count := Min(e.left, |data|);
      0 < count <= |data| && e.left - count >= 0
      && Scan(h, e, data, closing, cap)
         == After(h, GotPiece(h, e.(left := e.left - count), data[..count]), data[count..], closing, cap)
  {
  }

  /**
   * Looking for a line, the engine hands over everything up to and
   * including the first newline, keeps the rest, and refuses a line
   * longer than MAXLINE.
   */
  lemma LineTaken<R>(h: Hooks<R>, e: Engine<R>, line: Bytes, rest: Bytes, closing: bool)
    requires e.left == 0 && NL !in line
    ensures |line| > MAXLINE ==> Scan(h, e, line + [NL] + rest, closing, EveryLine) == Faulted(e, LineTooLong)
    ensures |line| <= MAXLINE ==>
      Scan(h, e, line + [NL] + rest, closing, EveryLine)
      == After(h, GotLine(h, e, Latin1(line + [NL])), rest, closing, EveryLine)
  {
    var data := line + [NL] + rest;
    assert data[|line|] == NL;
    assert forall k :: 0 <= k < |line| ==> data[k] == line[k];
    assert Find(data, NL, 0) == |line|;
    assert data[..|line| + 1] == line + [NL];
    assert data[|line| + 1..] == rest;
  }

  /**
   * A line of at most MAXLINE octets is handed over whole under either
   * check: the two caps differ only on longer complete lines.
   */
  lemma LineWithin<R>(h: Hooks<R>, e: Engine<R>, line: Bytes, rest: Bytes, closing: bool, cap: LineCap)
    requires e.left == 0 && NL !in line && |line| <= MAXLINE
    ensures Scan(h, e, line + [NL] + rest, closing, cap)
      == After(h, GotLine(h, e, Latin1(line + [NL])), rest, closing, cap)
  {
    var data := line + [NL] + rest;
    assert data[|line|] == NL;
    assert forall k :: 0 <= k < |line| ==> data[k] == line[k];
    assert Find(data, NL, 0) == |line|;
    assert data[..|line| + 1] == line + [NL];
    assert data[|line| + 1..] == rest;
  }

  /** What follows one step: an exception, a stop on close, or the rest scanned. */
  lemma AfterCases<R>(h: Hooks<R>, s: Step<R>, rest: Bytes, closing: bool, cap: LineCap)
    ensures s.Fail? ==> After(h, s, rest, closing, cap) == Faulted(s.e, s.fault)
    ensures s.Next? && (closing || s.closed) ==> After(h, s, rest, closing, cap) == Stopped(s.e)
    ensures s.Next? && !closing && !s.closed ==> After(h, s, rest, closing, cap) == Scan(h, s.e, rest, false, cap)
  {
  }

  /** A step taken as the `recv_complete` loop takes it leaves the loop in its `Passed` state. */
  lemma StepPassed<R>(h: Hooks<R>, s: Step<R>, rest: Bytes, closing: bool,
                      e: Engine<R>, closing': bool, fault: Option<Fault>)
    requires e == s.e && fault == (if s.Fail? then Some(s.fault) else None)
    requires s.Next? ==> closing' == (closing || s.closed)
    ensures Passed(h, After(h, s, rest, closing, EveryLine), e, closing', fault, rest)
  {
    AfterCases(h, s, rest, closing, EveryLine);
  }

  /**
   * One pass of the loop that hands over a piece: its step, taken as the
   * loop takes it, leaves the loop in its `Passed` state.
   */
  lemma PiecePassed<R>(h: Hooks<R>, e: Engine<R>, data: Bytes, closing: bool, count: nat, e1: Engine<R>, piece: Bytes,
                       e': Engine<R>, closing': bool, fault: Option<Fault>, rest: Bytes)
    requires data != [] && e.left > 0 && count == Min(e.left, |data|)
    requires e1 == e.(left := e.left - count) && piece == data[..count] && rest == data[count..]
    requires var st := GotPiece(h, e1, piece);
      e' == st.e && fault == (if st.Fail? then Some(st.fault) else None)
      && (st.Next? ==> closing' == (closing || st.closed))
    ensures Passed(h, Scan(h, e, data, closing, EveryLine), e', closing', fault, rest)
  {
    PieceTaken(h, e, data, closing, EveryLine);
    StepPassed(h, GotPiece(h, e1, piece), rest, closing, e', closing', fault);
  }

  /** The same for a pass that hands over the line that ends at the newline at `j`. */
  lemma LinePassed<R>(h: Hooks<R>, e: Engine<R>, data: Bytes, j: nat, closing: bool, line: string,
                      e': Engine<R>, closing': bool, fault: Option<Fault>, rest: Bytes)
    requires e.left == 0 && j == Find(data, NL, 0) && j <= MAXLINE
    requires j < |data| && line == Latin1(data[..j + 1]) && rest == data[j + 1..]
    requires var st := GotLine(h, e, line);
      e' == st.e && fault == (if st.Fail? then Some(st.fault) else None)
      && (st.Next? ==> closing' == (closing || st.closed))
    ensures Passed(h, Scan(h, e, data, closing, EveryLine), e', closing', fault, rest)
  {
    ScanLine(h, e, data, closing);
    StepPassed(h, GotLine(h, e, line), rest, closing, e', closing', fault);
  }

  /** Looking for a line: no newline, or one too far away. */
  lemma ScanNoLine<R>(h: Hooks<R>, e: Engine<R>, data: Bytes, closing: bool)
    requires e.left == 0 && data != []
    ensures var j := Find(data, NL, 0);
      (j == -1 ==> Scan(h, e, data, closing, EveryLine)
                   == if |data| > MAXLINE then Faulted(e, LineTooLong) else Waiting(e, data))
      && (j > MAXLINE ==> Scan(h, e, data, closing, EveryLine) == Faulted(e, LineTooLong))
  {
  }

  /** Looking for a line: the line up to the first newline is handled. */
  lemma ScanLine<R>(h: Hooks<R>, e: Engine<R>, data: Bytes, closing: bool)
    requires e.left == 0 && 0 <= Find(data, NL, 0) <= MAXLINE
    ensures var j := Find(data, NL, 0);
      Scan(h, e, data, closing, EveryLine)
      == After(h, GotLine(h, e, Latin1(data[..j + 1])), data[j + 1..], closing, EveryLine)
  {
    var j := Find(data, NL, 0);
    assert data != [] && !(e.left > 0) && j != -1 && !(j > MAXLINE);
  }

  /**
   * With no newline in the unconsumed octets the engine raises when there
   * are more than MAXLINE of them, and otherwise keeps them all.
   */
  lemma NoLineYet<R>(h: Hooks<R>, e: Engine<R>, data: Bytes, closing: bool, cap: LineCap)
    requires e.left == 0 && data != [] && NL !in data
    ensures |data| > MAXLINE ==> Scan(h, e, data, closing, cap) == Faulted(e, LineTooLong)
    ensures |data| <= MAXLINE ==> Scan(h, e, data, closing, cap) == Waiting(e, data)
  {
    assert Find(data, NL, 0) == -1;
  }

  /** One line step, under either line cap. */
  lemma LineStep<R>(h: Hooks<R>, e: Engine<R>, data: Bytes, closing: bool, cap: LineCap)
    requires e.left == 0 && Find(data, NL, 0) != -1
    requires !(cap == EveryLine && Find(data, NL, 0) > MAXLINE)
    ensures var j := Find(data, NL, 0);
      Scan(h, e, data, closing, cap)
      == After(h, GotLine(h, e, Latin1(data[..j + 1])), data[j + 1..], closing, cap)
  {
    var j := Find(data, NL, 0);
    assert data != [] && !(e.left > 0) && j != -1;
  }

  /** A waiting outcome's remainder holds no newline and at most MAXLINE octets. */
  ghost predicate RemainderOk<R>(o: Outcome<R>)
  {
    o.Waiting? ==> |o.rest| <= MAXLINE && NL !in o.rest && (o.rest != [] ==> o.e.left == 0)
  }

  /** A remainder left waiting never holds a newline nor more than MAXLINE octets. */
  lemma {:induction false} WaitingRemainder<R>(h: Hooks<R>, e: Engine<R>, data: Bytes, closing: bool, cap: LineCap)
    requires Scan(h, e, data, closing, cap).Waiting?
    ensures var o := Scan(h, e, data, closing, cap);
      |o.rest| <= MAXLINE && NL !in o.rest && (o.rest != [] ==> o.e.left == 0)
  {
    ScanRemainder(h, e, data, closing, cap);
  }

  lemma {:induction false} ScanRemainder<R>(h: Hooks<R>, e: Engine<R>, data: Bytes, closing: bool, cap: LineCap)
    ensures RemainderOk(Scan(h, e, data, closing, cap))
    decreases |data|, 0, 1
  {
    if data != [] && e.left > 0 {
      PieceRemainder(h, e, data, closing, cap);
    } else if data != [] && e.left == 0 {
      LineRemainder(h, e, data, closing, cap);
    }
  }

  lemma {:induction false} PieceRemainder<R>(h: Hooks<R>, e: Engine<R>, data: Bytes, closing: bool, cap: LineCap)
    requires data != [] && e.left > 0
    ensures RemainderOk(Scan(h, e, data, closing, cap))
    decreases |data|, 0, 0
  {
    var count := Min(e.left, |data|);
    var s := GotPiece(h, e.(left := e.left - count), data[..count]);
    PieceTaken(h, e, data, closing, cap);
    AfterRemainder(h, s, data[count..], closing, cap);
  }

  lemma {:induction false} LineRemainder<R>(h: Hooks<R>, e: Engine<R>, data: Bytes, closing: bool, cap: LineCap)
    requires data != [] && e.left == 0
    ensures RemainderOk(Scan(h, e, data, closing, cap))
    decreases |data|, 0, 0
  {
    var i := Find(data, NL, 0);
    if i == -1 {
      NoLineYet(h, e, data, closing, cap);
    } else if !(cap == EveryLine && i > MAXLINE) {
      var s := GotLine(h, e, Latin1(data[..i + 1]));
      LineStep(h, e, data, closing, cap);
      AfterRemainder(h, s, data[i + 1..], closing, cap);
    }
  }

  lemma {:induction false} AfterRemainder<R>(h: Hooks<R>, s: Step<R>, rest: Bytes, closing: bool, cap: LineCap)
    ensures RemainderOk(After(h, s, rest, closing, cap))
    decreases |rest|, 1, 0
  {
    AfterCases(h, s, rest, closing, cap);
    if s.Next? && !closing && !s.closed {
      ScanRemainder(h, s.e, rest, false, cap);
    }
  }

  /** Once the stream is closing, at most one line or piece is handled. */
  lemma ClosingStopsAfterOneStep<R>(h: Hooks<R>, e: Engine<R>, data: Bytes, cap: LineCap)
    ensures !Scan(h, e, data, true, cap).Waiting? || Scan(h, e, data, true, cap).rest == data
  {
    if data != [] && e.left > 0 {
      var count := Min(e.left, |data|);
      var s := GotPiece(h, e.(left := e.left - count), data[..count]);
      assert s.Next? ==> Scan(h, e, data, true, cap) == Stopped(s.e);
    }
  }

  // ----- Header lines --------------------------------------------------------

  /** A header line starting with a space or a tab (obsolete line folding) raises. */
  lemma FoldedHeaderRejected<R>(h: Hooks<R>, e: Engine<R>, line: string)
    requires e.state == Header && |line| > 0 && (line[0] == ' ' || line[0] == '\t')
    ensures GotLine(h, e, line) == Fail(e, ContinuationHeader)
  {
  }

  /**
   * A non-blank header line without a colon raises; one with a colon is
   * split at the first colon into a lower-cased, stripped name and a
   * stripped value for the role.
   */
  lemma HeaderLineSplit<R>(h: Hooks<R>, e: Engine<R>, line: string)
    requires e.state == Header && |line| > 0 && line[0] != ' ' && line[0] != '\t'
    requires !AllSpace(line)
    ensures var t := Strip(line);
      ':' !in t ==> GotLine(h, e, line) == Fail(e, InvalidHeaderLine)
    ensures var t := Strip(line); var i := Find(t, ':', 0);
      ':' in t ==>
        0 <= i < |t| && t[i] == ':' && ':' !in t[..i]
        && GotLine(h, e, line)
           == match h.header(e.role, Strip(Lower(t[..i])), Strip(t[i + 1..]))
              case None => Fail(e, HookFailed)
              case Some(r) => Next(e.(role := r), false)
  {
    StripSpec(line);
    var t := Strip(line);
    var i := Find(t, ':', 0);
    if i == -1 {
      HeaderWithoutColon(h, e, line);
    } else {
      HeaderColonStep(h, e, line, t, i);
      FirstIndex(t, ':', i);
    }
  }

  lemma HeaderWithoutColon<R>(h: Hooks<R>, e: Engine<R>, line: string)
    requires e.state == Header && |line| > 0 && line[0] != ' ' && line[0] != '\t'
    requires Strip(line) != [] && Find(Strip(line), ':', 0) == -1
    ensures GotLine(h, e, line) == Fail(e, InvalidHeaderLine)
  {
  }

  lemma HeaderColonStep<R>(h: Hooks<R>, e: Engine<R>, line: string, t: string, i: nat)
    requires e.state == Header && |line| > 0 && line[0] != ' ' && line[0] != '\t'
    requires t == Strip(line) && i < |t| && i == Find(t, ':', 0)
    ensures GotLine(h, e, line)
         == match h.header(e.role, Strip(Lower(t[..i])), Strip(t[i + 1..]))
            case None => Fail(e, HookFailed)
            case Some(r) => Next(e.(role := r), false)
  {
  }

  /** The step a blank header line takes. */
  lemma BlankHeaderStep<R>(h: Hooks<R>, e: Engine<R>, line: string)
    requires e.state == Header && |line| > 0 && line[0] != ' ' && line[0] != '\t' && Strip(line) == []
    ensures GotLine(h, e, line)
         == match h.endOfHeaders(e.role)
            case None => Fail(e, HookFailed)
            case Some(hd) =>
              var e1 := Engine(hd.state, hd.left, hd.role);
              if hd.state == Error then Next(e1, true)
              else if hd.state == FirstLine then EndOfBody(h, e1, hd.closed)
              else Next(e1, hd.closed)
  {
  }

  /**
   * A blank header line ends the headers: the role decides the state and
   * `_left`; ERROR closes the stream and FIRSTLINE (no body) ends the
   * body at once.
   */
  lemma EndOfHeadersDecides<R>(h: Hooks<R>, e: Engine<R>, line: string)
    requires e.state == Header && |line| > 0 && line[0] != ' ' && line[0] != '\t'
    requires AllSpace(line)
    ensures h.endOfHeaders(e.role).None? ==> GotLine(h, e, line) == Fail(e, HookFailed)
    ensures h.endOfHeaders(e.role).Some? ==>
      var hd := h.endOfHeaders(e.role).value;
      var e1 := Engine(hd.state, hd.left, hd.role);
      (hd.state == Error ==> GotLine(h, e, line) == Next(e1, true))
      && (hd.state == FirstLine ==> GotLine(h, e, line) == EndOfBody(h, e1, hd.closed))
      && (hd.state != Error && hd.state != FirstLine ==> GotLine(h, e, line) == Next(e1, hd.closed))
  {
  }

  // ----- Split independence ---------------------------------------------------

  function PieceThen<R>(h: Hooks<R>, o: Option<R>, more: Bytes): Option<R>
  {
    match o
    case None => None
    case Some(r) => h.piece(r, more)
  }

  /**
   * The role does not care how a body is cut into pieces: two pieces in
   * a row have the effect of their concatenation.
   */
  ghost predicate Additive<R(!new)>(h: Hooks<R>)
  {
    forall r: R, a: Bytes, b: Bytes {:trigger h.piece(r, a + b)} ::
      |a| > 0 && |b| > 0 ==> h.piece(r, a + b) == PieceThen(h, h.piece(r, a), b)
  }

  /** What the role makes of a whole body, however it arrives. */
  function Deliver<R>(h: Hooks<R>, r: R, body: Bytes): Option<R>
  {
    if body == [] then Some(r) else h.piece(r, body)
  }

  function DeliverThen<R>(h: Hooks<R>, o: Option<R>, more: Bytes): Option<R>
  {
    match o
    case None => None
    case Some(r) => Deliver(h, r, more)
  }

  lemma DeliverAppend<R(!new)>(h: Hooks<R>, r: R, a: Bytes, b: Bytes)
    requires Additive(h)
    ensures Deliver(h, r, a + b) == DeliverThen(h, Deliver(h, r, a), b)
  {
    if a == [] {
      assert a + b == b;
    } else if b == [] {
      assert a + b == a;
      if h.piece(r, a).Some? {
        assert Deliver(h, h.piece(r, a).value, b) == Some(h.piece(r, a).value);
      }
    } else {
      assert h.piece(r, a + b) == PieceThen(h, h.piece(r, a), b);
    }
  }

  /**
   * In UNBOUNDED state all the data goes to the role, whatever `_left`
   * says, and `_left` is back at MAXBUF.
   */
  lemma {:induction false} UnboundedDrain<R(!new)>(h: Hooks<R>, e: Engine<R>, d: Bytes, cap: LineCap)
    requires Additive(h) && e.state == Unbounded && e.left > 0 && d != []
    ensures h.piece(e.role, d).Some? ==>
      Scan(h, e, d, false, cap) == Waiting(Engine(Unbounded, Stream.MAXBUF, h.piece(e.role, d).value), [])
    ensures h.piece(e.role, d).None? ==>
      Scan(h, e, d, false, cap).Faulted? && Scan(h, e, d, false, cap).fault == HookFailed
    decreases |d|
  {
    var count := Min(e.left, |d|);
    var p := d[..count];
    var rest := d[count..];
    assert d == p + rest;
    var s := GotPiece(h, e.(left := e.left - count), p);
    assert Scan(h, e, d, false, cap) == After(h, s, rest, false, cap);
    if h.piece(e.role, p).Some? {
      var e2 := Engine(Unbounded, Stream.MAXBUF, h.piece(e.role, p).value);
      assert s == Next(e2, false);
      if rest == [] {
        assert p == d;
      } else {
        assert h.piece(e.role, d) == PieceThen(h, h.piece(e.role, p), rest);
        UnboundedDrain(h, e2, rest, cap);
      }
    } else {
      if rest != [] {
        assert h.piece(e.role, d) == PieceThen(h, h.piece(e.role, p), rest);
      } else {
        assert p == d;
      }
    }
  }

  /** Two consecutive pieces of a BOUNDED or CHUNK body act as one. */
  lemma PieceShift<R(!new)>(h: Hooks<R>, e: Engine<R>, r1: R, p1: Bytes, p2: Bytes)
    requires Additive(h) && |p1| > 0 && |p2| > 0 && h.piece(e.role, p1) == Some(r1)
    requires e.state == Bounded || e.state == Chunk
    ensures SameStep(GotPiece(h, e, p1 + p2), GotPiece(h, e.(role := r1), p2))
  {
    assert h.piece(e.role, p1 + p2) == PieceThen(h, h.piece(e.role, p1), p2);
  }

  /** Equal steps, except that where both raised only the reason is compared. */
  ghost predicate SameStep<R>(x: Step<R>, y: Step<R>)
  {
    x == y || (x.Fail? && y.Fail? && x.fault == y.fault)
  }

  lemma AfterSame<R>(h: Hooks<R>, x: Step<R>, y: Step<R>, rest: Bytes)
    requires SameStep(x, y)
    ensures Same(After(h, x, rest, false, EveryLine), After(h, y, rest, false, EveryLine))
  {
  }

  /** A waiting outcome whose remainder could not have been scanned further. */
  ghost predicate Settled<R>(o: Outcome<R>)
  {
    o.Waiting? ==> |o.rest| <= MAXLINE && NL !in o.rest && (o.rest != [] ==> o.e.left == 0)
  }

  lemma SettledFeedEmpty<R>(h: Hooks<R>, o: Outcome<R>)
    requires Settled(o)
    ensures Feed(h, o, [], EveryLine) == o
  {
    if o.Waiting? {
      assert o.rest + [] == o.rest;
      if o.rest != [] {
        NoLineYet(h, o.e, o.rest, false, EveryLine);
      }
    }
  }

  lemma SameTrans<R>(x: Outcome<R>, y: Outcome<R>, z: Outcome<R>)
    requires Same(x, y) && Same(z, y)
    ensures Same(x, z)
  {
  }

  /**
   * Scanning `a + b` in one read comes to the same as scanning `a` and
   * then, in the next read, `b`: same engine, same role state, same
   * remainder, or the same exception.
   */
  lemma {:induction false} ScanSplit<R(!new)>(h: Hooks<R>, e: Engine<R>, a: Bytes, b: Bytes)
    requires Additive(h)
    ensures Same(Scan(h, e, a + b, false, EveryLine), Feed(h, Scan(h, e, a, false, EveryLine), b, EveryLine))
    decreases |a|
  {
    var cap := EveryLine;
    if a == [] {
      assert a + b == b;
    } else if b == [] {
      assert a + b == a;
      WaitingRemainderSettled(h, e, a);
      SettledFeedEmpty(h, Scan(h, e, a, false, cap));
    } else if e.left > 0 {
      ScanSplitPiece(h, e, a, b);
    } else if e.left == 0 {
      var i := Find(a, NL, 0);
      FindAppend(a, b, NL, 0);
      if i != -1 {
        if i <= MAXLINE {
          assert (a + b)[..i + 1] == a[..i + 1];
          assert (a + b)[i + 1..] == a[i + 1..] + b;
          var s := GotLine(h, e, Latin1(a[..i + 1]));
          if s.Next? && !s.closed {
            ScanSplit(h, s.e, a[i + 1..], b);
          }
        }
      } else if |a| <= MAXLINE {
        assert Scan(h, e, a, false, cap) == Waiting(e, a);
      }
    }
  }

  lemma WaitingRemainderSettled<R>(h: Hooks<R>, e: Engine<R>, a: Bytes)
    ensures Settled(Scan(h, e, a, false, EveryLine))
  {
    if Scan(h, e, a, false, EveryLine).Waiting? {
      WaitingRemainder(h, e, a, false, EveryLine);
    }
  }

  /** `ScanSplit` when the engine is looking for a piece. */
  lemma {:induction false} ScanSplitPiece<R(!new)>(h: Hooks<R>, e: Engine<R>, a: Bytes, b: Bytes)
    requires Additive(h) && a != [] && b != [] && e.left > 0
    ensures Same(Scan(h, e, a + b, false, EveryLine), Feed(h, Scan(h, e, a, false, EveryLine), b, EveryLine))
    decreases |a|, 1
  {
    if |a| >= e.left {
      SplitAfterPiece(h, e, a, b);
    } else if e.state == Unbounded {
      SplitUnbounded(h, e, a, b);
    } else if e.state == Bounded || e.state == Chunk {
      SplitInsidePiece(h, e, a, b);
    }
  }

  /** The first read holds the whole piece. */
  lemma {:induction false} SplitAfterPiece<R(!new)>(h: Hooks<R>, e: Engine<R>, a: Bytes, b: Bytes)
    requires Additive(h) && b != [] && 0 < e.left <= |a|
    ensures Same(Scan(h, e, a + b, false, EveryLine), Feed(h, Scan(h, e, a, false, EveryLine), b, EveryLine))
    decreases |a|, 0
  {
    var cap := EveryLine;
    var L := e.left;
    var p := a[..L];
    assert (a + b)[..L] == p;
    assert (a + b)[L..] == a[L..] + b;
    var s := GotPiece(h, e.(left := 0), p);
    assert Scan(h, e, a + b, false, cap) == After(h, s, a[L..] + b, false, cap);
    assert Scan(h, e, a, false, cap) == After(h, s, a[L..], false, cap);
    if s.Next? && !s.closed {
      ScanSplit(h, s.e, a[L..], b);
    }
  }

  /** Without a length the body is drained whatever the reads. */
  lemma SplitUnbounded<R(!new)>(h: Hooks<R>, e: Engine<R>, a: Bytes, b: Bytes)
    requires Additive(h) && a != [] && b != [] && 0 < e.left && e.state == Unbounded
    ensures Same(Scan(h, e, a + b, false, EveryLine), Feed(h, Scan(h, e, a, false, EveryLine), b, EveryLine))
  {
    var cap := EveryLine;
    UnboundedDrain(h, e, a + b, cap);
    UnboundedDrain(h, e, a, cap);
    assert h.piece(e.role, a + b) == PieceThen(h, h.piece(e.role, a), b);
    if h.piece(e.role, a).Some? {
      assert [] + b == b;
      UnboundedDrain(h, Engine(Unbounded, Stream.MAXBUF, h.piece(e.role, a).value), b, cap);
    }
  }

  /** The first read ends inside a piece of known length. */
  lemma SplitInsidePiece<R(!new)>(h: Hooks<R>, e: Engine<R>, a: Bytes, b: Bytes)
    requires Additive(h) && a != [] && b != [] && |a| < e.left && (e.state == Bounded || e.state == Chunk)
    ensures Same(Scan(h, e, a + b, false, EveryLine), Feed(h, Scan(h, e, a, false, EveryLine), b, EveryLine))
  {
    var k := Min(e.left - |a|, |b|);
    var e2 := e.(left := e.left - |a| - k);
    PieceTaken(h, e, a + b, false, EveryLine);
    assert (a + b)[..|a| + k] == a + b[..k];
    assert (a + b)[|a| + k..] == b[k..];
    assert Scan(h, e, a + b, false, EveryLine) == After(h, GotPiece(h, e2, a + b[..k]), b[k..], false, EveryLine);
    PieceTaken(h, e, a, false, EveryLine);
    assert a[..|a|] == a && a[|a|..] == [];
    var e1 := e.(left := e.left - |a|);
    assert Scan(h, e, a, false, EveryLine) == After(h, GotPiece(h, e1, a), [], false, EveryLine);
    if h.piece(e.role, a).Some? {
      InsideKnownPiece(h, e, a, b, h.piece(e.role, a).value);
    } else {
      assert h.piece(e.role, a + b[..k]) == PieceThen(h, h.piece(e.role, a), b[..k]);
      assert GotPiece(h, e1, a).Fail? && GotPiece(h, e2, a + b[..k]).Fail?;
    }
  }

  /** The role accepted the first part: the second read continues the same piece. */
  lemma InsideKnownPiece<R(!new)>(h: Hooks<R>, e: Engine<R>, a: Bytes, b: Bytes, r1: R)
    requires Additive(h) && a != [] && b != [] && |a| < e.left && (e.state == Bounded || e.state == Chunk)
    requires h.piece(e.role, a) == Some(r1)
    ensures var k := Min(e.left - |a|, |b|);
      Same(After(h, GotPiece(h, e.(left := e.left - |a| - k), a + b[..k]), b[k..], false, EveryLine),
           Feed(h, After(h, GotPiece(h, e.(left := e.left - |a|), a), [], false, EveryLine), b, EveryLine))
  {
    var k := Min(e.left - |a|, |b|);
    var e1r := Engine(e.state, e.left - |a|, r1);
    var e3 := e1r.(left := e.left - |a| - k);
    assert GotPiece(h, e.(left := e.left - |a|), a) == Next(e1r, false);
    assert After(h, Next(e1r, false), [], false, EveryLine) == Waiting(e1r, []);
    assert [] + b == b;
    PieceTaken(h, e1r, b, false, EveryLine);
    assert Scan(h, e1r, b, false, EveryLine) == After(h, GotPiece(h, e3, b[..k]), b[k..], false, EveryLine);
    PieceShift(h, e.(left := e.left - |a| - k), r1, a, b[..k]);
    assert e.(left := e.left - |a| - k).(role := r1) == e3;
    AfterSame(h, GotPiece(h, e.(left := e.left - |a| - k), a + b[..k]), GotPiece(h, e3, b[..k]), b[k..]);
  }

  /** A run of reads, each fragment fed to the outcome of the one before. */
  function FeedAll<R>(h: Hooks<R>, o: Outcome<R>, fragments: seq<Bytes>, cap: LineCap): Outcome<R>
    decreases |fragments|
  {
    if fragments == [] then o else FeedAll(h, Feed(h, o, fragments[0], cap), fragments[1..], cap)
  }

  lemma {:induction false} FeedAllJoin<R(!new)>(h: Hooks<R>, o: Outcome<R>, fragments: seq<Bytes>)
    requires Additive(h) && Settled(o)
    ensures Same(FeedAll(h, o, fragments, EveryLine), Feed(h, o, Join(fragments), EveryLine))
    decreases |fragments|
  {
    if fragments == [] {
      SettledFeedEmpty(h, o);
    } else {
      var f := fragments[0];
      var o1 := Feed(h, o, f, EveryLine);
      if o.Waiting? {
        WaitingRemainderSettled(h, o.e, o.rest + f);
      }
      FeedAllJoin(h, o1, fragments[1..]);
      if o.Waiting? {
        ScanSplit(h, o.e, o.rest + f, Join(fragments[1..]));
        assert o.rest + f + Join(fragments[1..]) == o.rest + Join(fragments);
        SameTrans(FeedAll(h, o, fragments, EveryLine), Feed(h, o1, Join(fragments[1..]), EveryLine),
                  Feed(h, o, Join(fragments), EveryLine));
      }
    }
  }

  /**
   * However the octets of a connection are cut into reads, the engine
   * ends in the same state with the same role state (so the same
   * delivered body) and the same remainder, or fails for the same reason.
   */
  lemma SplitIndependent<R(!new)>(h: Hooks<R>, e: Engine<R>, fragments: seq<Bytes>)
    requires Additive(h)
    ensures Same(FeedAll(h, Waiting(e, []), fragments, EveryLine), Scan(h, e, Join(fragments), false, EveryLine))
  {
    FeedAllJoin(h, Waiting(e, []), fragments);
    assert [] + Join(fragments) == Join(fragments);
  }

  /** `n` octets of the letter `a`. */
  function Letters(n: nat): (s: Bytes)
    ensures |s| == n && NL !in s
  {
    seq(n, _ => 97)
  }

  /**
   * As the source checks it, a line longer than MAXLINE is accepted when
   * its newline comes in the same read and refused when it does not;
   * with every line checked it is refused either way.
   */
  lemma LongLineDependsOnSplit<R>(h: Hooks<R>, r: R)
    ensures var e := Engine(Trailer, 0, r);
      var a := Letters(MAXLINE + 1);
      Scan(h, e, a + [NL], false, RemainderOnly) == Waiting(e, [])
      && Feed(h, Scan(h, e, a, false, RemainderOnly), [NL], RemainderOnly) == Faulted(e, LineTooLong)
      && Scan(h, e, a + [NL], false, EveryLine) == Faulted(e, LineTooLong)
  {
    var e := Engine(Trailer, 0, r);
    var a := Letters(MAXLINE + 1);
    var line := Latin1(a + [NL]);
    assert line[0] == 'a';
    assert !AllSpace(line);
    assert GotLine(h, e, line) == Next(e, false);
    LineTaken(h, e, a, [], false);
    assert a + [NL] + [] == a + [NL];
    var d := a + [NL];
    assert Find(d, NL, 0) == MAXLINE + 1 by {
      assert d[MAXLINE + 1] == NL;
      assert forall k :: 0 <= k < MAXLINE + 1 ==> d[k] == a[k];
    }
    assert d[..MAXLINE + 2] == d;
    assert d[MAXLINE + 2..] == [];
    NoLineYet(h, e, a, false, RemainderOnly);
  }

  // ----- Chunked transfer coding ---------------------------------------------------

  /** A chunk-size line: the size in hexadecimal, then CRLF. */
  function SizeLine(n: nat): Bytes
  {
    Latin1Encode(HexString(n)) + CRLF
  }

  /** Each chunk preceded by its size line and followed by CRLF. */
  function ChunkData(chunks: seq<Bytes>): Bytes
  {
    if chunks == [] then [] else SizeLine(|chunks[0]|) + chunks[0] + CRLF + ChunkData(chunks[1..])
  }

  function TrailerBlock(trailers: seq<Bytes>): Bytes
  {
    if trailers == [] then [] else trailers[0] + CRLF + TrailerBlock(trailers[1..])
  }

  /**
   * The chunked coding of a body (section 4.1 of RFC 7230): the chunks,
   * the last chunk `0`, the trailer fields and an empty line.
   */
  function Chunked(chunks: seq<Bytes>, trailers: seq<Bytes>): Bytes
  {
    ChunkData(chunks) + SizeLine(0) + TrailerBlock(trailers) + CRLF
  }

  /** A chunk the coding can carry: not empty (that would be the last chunk), with a size line within MAXLINE. */
  predicate ValidChunk(c: Bytes)
  {
    |c| > 0 && |HexString(|c|)| < MAXLINE
  }

  /** A trailer field line: one line, within MAXLINE, not blank. */
  predicate TrailerLine(t: Bytes)
  {
    NL !in t && |t| < MAXLINE && !AllSpace(Latin1(t))
  }

  lemma CrlfLine(prefix: Bytes)
    ensures Latin1(prefix + [CR] + [NL]) == Latin1(prefix) + "\r\n"
  {
    assert prefix + [CR] + [NL] == prefix + [CR, NL];
    Latin1Append(prefix, [CR, NL]);
  }

  /** In CHUNK_LENGTH a size line moves to CHUNK with that size, or to TRAILER for size 0. */
  lemma SizeLineHandled<R>(h: Hooks<R>, e: Engine<R>, n: nat)
    requires e.state == ChunkLength
    ensures GotLine(h, e, HexString(n) + "\r\n")
         == if n == 0 then Next(e.(state := Trailer), false) else Next(e.(state := Chunk, left := n), false)
  {
    assert forall k :: 0 <= k < |HexString(n)| ==> !IsSpace(HexString(n)[k]);
    SplitWsFirst(HexString(n), "\r\n");
    ParseHexString(n);
    ChunkLengthLine(h, e, HexString(n) + "\r\n", n);
  }

  lemma ChunkLengthLine<R>(h: Hooks<R>, e: Engine<R>, line: string, n: nat)
    requires e.state == ChunkLength && SplitWs(line) != [] && ParseInt16(SplitWs(line)[0]) == Some(n)
    ensures GotLine(h, e, line)
         == if n == 0 then Next(e.(state := Trailer), false) else Next(e.(state := Chunk, left := n), false)
  {
  }

  /** The size line of a chunk sends the engine to CHUNK with `_left` set to the size. */
  lemma SizeLineStep<R>(h: Hooks<R>, r: R, n: nat, more: Bytes, cap: LineCap)
    requires |HexString(n)| < MAXLINE
    ensures Scan(h, Engine(ChunkLength, 0, r), SizeLine(n) + more, false, cap)
         == (if n == 0 then Scan(h, Engine(Trailer, 0, r), more, false, cap)
             else Scan(h, Engine(Chunk, n, r), more, false, cap))
  {
    var hex := Latin1Encode(HexString(n));
    var e := Engine(ChunkLength, 0, r);
    assert NL !in hex + [CR] by {
      assert forall k :: 0 <= k < |hex| ==> Latin1(hex)[k] as int == hex[k] as int;
    }
    assert SizeLine(n) + more == hex + [CR] + [NL] + more;
    LineWithin(h, e, hex + [CR], more, false, cap);
    CrlfLine(hex);
    SizeLineHandled(h, e, n);
  }

  /** A blank line in CHUNK_END returns to CHUNK_LENGTH. */
  lemma ChunkEndHandled<R>(h: Hooks<R>, e: Engine<R>)
    requires e.state == ChunkEnd
    ensures GotLine(h, e, "\r\n") == Next(e.(state := ChunkLength), false)
  {
    assert AllSpace("\r\n");
  }

  /** A CRLF line in CHUNK_END state returns the engine to CHUNK_LENGTH. */
  lemma ChunkEndStep<R>(h: Hooks<R>, r: R, more: Bytes, cap: LineCap)
    ensures Scan(h, Engine(ChunkEnd, 0, r), CRLF + more, false, cap)
         == Scan(h, Engine(ChunkLength, 0, r), more, false, cap)
  {
    assert CRLF + more == [CR] + [NL] + more;
    LineWithin(h, Engine(ChunkEnd, 0, r), [CR], more, false, cap);
    CrlfLine([]);
    assert [] + [CR] + [NL] == [CR] + [NL];
    ChunkEndHandled(h, Engine(ChunkEnd, 0, r));
  }

  /** The data of one chunk goes to the role as a single piece. */
  lemma ChunkPieceStep<R>(h: Hooks<R>, r: R, c: Bytes, more: Bytes, cap: LineCap)
    requires |c| > 0
    ensures var o := Scan(h, Engine(Chunk, |c|, r), c + more, false, cap);
      match h.piece(r, c)
      case None => o.Faulted? && o.fault == HookFailed
      case Some(r1) => o == Scan(h, Engine(ChunkEnd, 0, r1), more, false, cap)
  {
    PieceTaken(h, Engine(Chunk, |c|, r), c + more, false, cap);
    assert (c + more)[..|c|] == c && (c + more)[|c|..] == more;
  }

  /** One chunk, from its size line to its CRLF, goes to the role as one piece. */
  lemma OneChunk<R>(h: Hooks<R>, r: R, c: Bytes, more: Bytes, cap: LineCap)
    requires ValidChunk(c)
    ensures var o := Scan(h, Engine(ChunkLength, 0, r), SizeLine(|c|) + c + CRLF + more, false, cap);
      match h.piece(r, c)
      case None => o.Faulted? && o.fault == HookFailed
      case Some(r1) => o == Scan(h, Engine(ChunkLength, 0, r1), more, false, cap)
  {
    assert SizeLine(|c|) + c + CRLF + more == SizeLine(|c|) + (c + (CRLF + more));
    SizeLineStep(h, r, |c|, c + (CRLF + more), cap);
    ChunkPieceStep(h, r, c, CRLF + more, cap);
    if h.piece(r, c).Some? {
      ChunkEndStep(h, h.piece(r, c).value, more, cap);
    }
  }

  /** The chunks of a chunked body deliver their concatenation to the role. */
  lemma {:induction false} ChunksDecoded<R(!new)>(h: Hooks<R>, r: R, chunks: seq<Bytes>, tail: Bytes, cap: LineCap)
    requires Additive(h)
    requires forall k :: 0 <= k < |chunks| ==> ValidChunk(chunks[k])
    ensures var o := Scan(h, Engine(ChunkLength, 0, r), ChunkData(chunks) + tail, false, cap);
      match Deliver(h, r, Join(chunks))
      case None => o.Faulted? && o.fault == HookFailed
      case Some(r1) => o == Scan(h, Engine(ChunkLength, 0, r1), tail, false, cap)
    decreases |chunks|
  {
    if chunks == [] {
      assert ChunkData(chunks) + tail == tail;
    } else {
      var c, rest := chunks[0], chunks[1..];
      var more := ChunkData(rest) + tail;
      assert ChunkData(chunks) + tail == SizeLine(|c|) + c + CRLF + more;
      assert Join(chunks) == c + Join(rest);
      OneChunk(h, r, c, more, cap);
      DeliverAppend(h, r, c, Join(rest));
      if h.piece(r, c).Some? {
        ChunksDecoded(h, h.piece(r, c).value, rest, tail, cap);
      }
    }
  }

  /** In TRAILER a non-blank line is ignored and a blank one ends the body. */
  lemma TrailerHandled<R>(h: Hooks<R>, e: Engine<R>, line: string)
    requires e.state == Trailer && |line| > 0
    ensures !AllSpace(line) ==> GotLine(h, e, line) == Next(e, false)
    ensures AllSpace(line) ==> GotLine(h, e, line) == EndOfBody(h, e.(state := FirstLine), false)
  {
  }

  /** Trailer fields are read and discarded (section 4.1.2 of RFC 7230). */
  lemma {:induction false} TrailersSkipped<R>(h: Hooks<R>, r: R, trailers: seq<Bytes>, tail: Bytes, cap: LineCap)
    requires forall k :: 0 <= k < |trailers| ==> TrailerLine(trailers[k])
    ensures Scan(h, Engine(Trailer, 0, r), TrailerBlock(trailers) + tail, false, cap)
         == Scan(h, Engine(Trailer, 0, r), tail, false, cap)
    decreases |trailers|
  {
    if trailers == [] {
      assert TrailerBlock(trailers) + tail == tail;
    } else {
      var t := trailers[0];
      var e := Engine(Trailer, 0, r);
      var more := TrailerBlock(trailers[1..]) + tail;
      assert TrailerBlock(trailers) + tail == t + [CR] + [NL] + more;
      assert NL !in t + [CR];
      LineWithin(h, e, t + [CR], more, false, cap);
      CrlfLine(t);
      var line := Latin1(t) + "\r\n";
      assert !AllSpace(line) by {
        var k :| 0 <= k < |Latin1(t)| && !IsSpace(Latin1(t)[k]);
        assert line[k] == Latin1(t)[k];
      }
      TrailerHandled(h, e, line);
      TrailersSkipped(h, r, trailers[1..], tail, cap);
    }
  }

  /** The empty line after the trailer ends the body. */
  lemma LastLineStep<R>(h: Hooks<R>, r: R, tail: Bytes, cap: LineCap)
    ensures var o := Scan(h, Engine(Trailer, 0, r), CRLF + tail, false, cap);
      match h.endOfBody(r)
      case None => o.Faulted? && o.fault == HookFailed
      case Some(rep) =>
        o == if rep.closed then Stopped(Engine(FirstLine, 0, rep.role))
             else Scan(h, Engine(FirstLine, 0, rep.role), tail, false, cap)
  {
    var e := Engine(Trailer, 0, r);
    assert CRLF + tail == [CR] + [NL] + tail;
    LineWithin(h, e, [CR], tail, false, cap);
    CrlfLine([]);
    assert [] + [CR] + [NL] == [CR] + [NL];
    assert AllSpace("\r\n");
    TrailerHandled(h, e, "\r\n");
  }

  /**
   * Decoding a chunked body gives the role exactly the concatenation of
   * the chunks, discards the trailers, ends the body and leaves the
   * engine at FIRSTLINE on the octets that follow.
   */
  lemma ChunkedRoundTrip<R(!new)>(h: Hooks<R>, r: R, chunks: seq<Bytes>, trailers: seq<Bytes>, tail: Bytes, cap: LineCap)
    requires Additive(h)
    requires forall k :: 0 <= k < |chunks| ==> ValidChunk(chunks[k])
    requires forall k :: 0 <= k < |trailers| ==> TrailerLine(trailers[k])
    ensures var o := Scan(h, Engine(ChunkLength, 0, r), Chunked(chunks, trailers) + tail, false, cap);
      match Deliver(h, r, Join(chunks))
      case None => o.Faulted? && o.fault == HookFailed
      case Some(r1) =>
        match h.endOfBody(r1)
        case None => o.Faulted? && o.fault == HookFailed
        case Some(rep) =>
          o == if rep.closed then Stopped(Engine(FirstLine, 0, rep.role))
               else Scan(h, Engine(FirstLine, 0, rep.role), tail, false, cap)
  {
    var last := SizeLine(0) + (TrailerBlock(trailers) + (CRLF + tail));
    assert Chunked(chunks, trailers) + tail == ChunkData(chunks) + last;
    ChunksDecoded(h, r, chunks, last, cap);
    if Deliver(h, r, Join(chunks)).Some? {
      var r1 := Deliver(h, r, Join(chunks)).value;
      assert |HexString(0)| == 1;
      SizeLineStep(h, r1, 0, TrailerBlock(trailers) + (CRLF + tail), cap);
      TrailersSkipped(h, r1, trailers, CRLF + tail, cap);
      LastLineStep(h, r1, tail, cap);
    }
  }
}
