/** The per-connection protocol state machine of java/src/Ice/ConnectionI.java.
  *
  * Every `synchronized` section of the source is one atomic step here.  The
  * transceiver is an oracle: `Config.writeFails(n)` says whether the n-th write
  * attempt on the connection fails and with which exception, reading the
  * validation header is a parameter of `Validate`, and the clock is a `now`
  * parameter.  The thread pool, the dispatcher and the servant manager are
  * outside the model; `Message` hands back what the dispatcher would be given. */
module IceConnection {
  import opened Basics
  import Stream

  // ---------------------------------------------------------------------
  // Protocol constants (IceInternal.Protocol)
  // ---------------------------------------------------------------------

  const Magic: seq<byte> := [0x49, 0x63, 0x65, 0x50]
  const ProtocolMajor: byte := 1
  const ProtocolMinor: byte := 0
  const EncodingMajor: byte := 1
  const EncodingMinor: byte := 0
  const HeaderSize: int := 14

  const RequestMsg: byte := 0
  const RequestBatchMsg: byte := 1
  const ReplyMsg: byte := 2
  const ValidateConnectionMsg: byte := 3
  const CloseConnectionMsg: byte := 4

  /** A message header: magic, versions, type, compression status 0, size. */
  function Header(messageType: byte, size: int): (r: seq<byte>)
    ensures |r| == HeaderSize
  {
    Magic + [ProtocolMajor, ProtocolMinor, EncodingMajor, EncodingMinor, messageType, 0] + Stream.IntBytes(size)
  }

  /** The frame a server-side connection sends to validate itself. */
  function ValidateConnectionFrame(): seq<byte> { Header(ValidateConnectionMsg, HeaderSize) }

  /** The header-only frame that starts a graceful close. */
  function CloseConnectionFrame(): seq<byte> { Header(CloseConnectionMsg, HeaderSize) }

  /** The header of a batch: a request-batch header plus a zero count placeholder. */
  function RequestBatchHeader(): (r: seq<byte>)
    ensures |r| == HeaderSize + 4
  {
    Header(RequestBatchMsg, 0) + [0, 0, 0, 0]
  }

  /** The int at byte `pos` of a message, or None when the message is too short
    * (the stream raises an out-of-bounds error then). */
  function ReadInt(msg: seq<byte>, pos: nat): (r: Option<int32>)
    ensures r.Some? <==> pos + 4 <= |msg|
    ensures r.Some? ==> r.value == Stream.DecodeInt(msg[pos .. pos + 4])
  {
    if pos + 4 <= |msg| then Some(Stream.DecodeInt(msg[pos .. pos + 4])) else None
  }

  // ---------------------------------------------------------------------
  // States, exceptions and configuration
  // ---------------------------------------------------------------------

  datatype State = NotValidated | Active | Holding | Closing | Closed

  /** The integer the source gives each state; `isValidated` and
    * `isDestroyed` compare these. */
  function Ordinal(s: State): (r: nat)
    ensures r <= 4
  {
    match s
    case NotValidated => 0
    case Active => 1
    case Holding => 2
    case Closing => 3
    case Closed => 4
  }

  datatype LocalException =
    | BadMagic(badMagic: seq<byte>)
    | UnsupportedProtocol(badMajor: int, badMinor: int, major: int, minor: int)
    | UnsupportedEncoding(badMajor: int, badMinor: int, major: int, minor: int)
    | ConnectionNotValidated
    | IllegalMessageSize
    | CompressionNotSupported
    | CloseConnection
    | NegativeSize
    | UnknownRequestId
    | UnknownMessage
    | UnmarshalOutOfBounds
    | Timeout
    | ConnectionTimeout
    | ObjectAdapterDeactivated
    | CommunicatorDestroyed
    | TransportFailure(code: int)

  /** Identifies a waiting invocation (an `Outgoing` or `OutgoingAsync`). */
  type Caller = nat

  /** What is fixed when the connection is built.  `incoming` is true for a
    * connection accepted by an object adapter; `writeFails(n)` is the
    * transceiver's answer to the n-th write. */
  datatype Config = Config(datagram: bool, incoming: bool, warn: bool, acmTimeout: int,
                           writeFails: nat -> Option<LocalException>)

  /** The mutable state of a connection, as one value. */
  datatype Snapshot = Snapshot(
    state: State,
    exception: Option<LocalException>,
    dispatchCount: int,
    nextRequestId: int32,
    requests: map<int, Caller>,
    asyncRequests: map<int, Caller>,
    batchStream: seq<byte>,
    batchRequestNum: int,
    batchStreamInUse: bool,
    acmDeadline: int,
    transceiverOpen: bool,
    sent: seq<seq<byte>>,
    writes: nat,
    shutdownInitiated: bool,
    transceiverShutdown: bool)

  /** The invariant every atomic step keeps. */
  predicate Inv(s: Snapshot, cfg: Config)
  {
    && s.dispatchCount >= 0
    && s.batchRequestNum >= 0
    && BatchShaped(s.batchStream)
    && IdCounterOk(s.nextRequestId)
    && (s.exception.Some? <==> s.state in {Closing, Closed})
    && (!s.transceiverOpen ==> s.state == Closed)
    && (cfg.datagram ==> s.state != Closing)
    && (forall id :: id in s.requests ==> id > 0)
    && (forall id :: id in s.asyncRequests ==> id > 0)
    && (s.state == Closing && s.dispatchCount == 0 ==> s.shutdownInitiated)
    && (s.shutdownInitiated ==> s.state in {Closing, Closed} && s.dispatchCount == 0)
    && (s.transceiverShutdown ==> s.shutdownInitiated && CloseConnectionFrame() in s.sent)
  }

  // ---------------------------------------------------------------------
  // Request ids
  // ---------------------------------------------------------------------

  /** The counter is a Java `int`: at most MaxInt32, or MinInt32 right after
    * the increment past MaxInt32 wrapped around. */
  predicate IdCounterOk(next: int)
  {
    (1 <= next <= MaxInt32) || next == MinInt32
  }

  /** `requestId = _nextRequestId++; if(requestId <= 0) { _nextRequestId = 1;
    * requestId = _nextRequestId++; }` with 32-bit wrap-around: the id handed
    * out and the new counter. */
  function AllocateRequestId(next: int32): (r: (int32, int32))
  {
    var requestId := next;
    var after := Wrap32(next + 1);
    if requestId <= 0 then (1, 2) else (requestId, after)
  }

  lemma AllocatedIdPositive(next: int32)
    requires IdCounterOk(next)
    ensures 0 < AllocateRequestId(next).0 <= MaxInt32
    ensures IdCounterOk(AllocateRequestId(next).1)
  {
  }

  /** The counter after `k` allocations starting from the initial value 1. */
  function CounterAfter(k: nat): int32
  {
    if k == 0 then 1 else AllocateRequestId(CounterAfter(k - 1)).1
  }

  /** Starting from 1, the (k+1)-th allocation hands out k+1: the ids
    * 1, 2, ..., MaxInt32 are each used once before the counter wraps back to 1,
    * and 0 is never used. */
  lemma {:induction false} IdsCountUpFromOne(k: nat)
    requires k < MaxInt32
    ensures CounterAfter(k) == k + 1
    ensures AllocateRequestId(CounterAfter(k)).0 == k + 1
  {
    if k > 0 {
      IdsCountUpFromOne(k - 1);
    }
  }

  /** After MaxInt32 allocations the counter has wrapped, and the next id is 1 again. */
  lemma IdsWrapToOne()
    ensures CounterAfter(MaxInt32) == MinInt32
    ensures AllocateRequestId(CounterAfter(MaxInt32)).0 == 1
  {
    IdsCountUpFromOne(MaxInt32 - 1);
  }

  // ---------------------------------------------------------------------
  // Validation handshake
  // ---------------------------------------------------------------------

  /** A Java `byte` read from the wire: the signed value of an unsigned byte. */
  function JavaByte(b: byte): (r: int)
    ensures -128 <= r < 128
  {
    if b >= 128 then b - 256 else b
  }

  /** How the source reports a version byte in UnsupportedProtocolException
    * and UnsupportedEncodingException: `b < 0 ? b + 255 : b`. */
  function ReportedVersionAsWritten(signed: int): int
  {
    if signed < 0 then signed + 255 else signed
  }

  /** The as-written conversion maps two different wire bytes to the same
    * reported number, and reports 0xFF as 254. */
  lemma ReportedVersionAsWrittenCollides()
    ensures ReportedVersionAsWritten(JavaByte(0x80)) == ReportedVersionAsWritten(JavaByte(0x7f)) == 127
    ensures ReportedVersionAsWritten(JavaByte(0xff)) == 254
  {
  }

  /** The evidently intended conversion of a signed Java byte to its unsigned value. */
  function ReportedVersion(signed: int): (r: int)
    requires -128 <= signed < 128
    ensures 0 <= r < 256
  {
    if signed < 0 then signed + 256 else signed
  }

  /** The corrected report is exactly the byte on the wire. */
  lemma ReportedVersionIsWireByte(b: byte)
    ensures ReportedVersion(JavaByte(b)) == b
  {
  }

  /** The client's checks on the validation header, in the source's order:
    * magic, protocol major, encoding major, message type, then size.  Minor
    * versions and the compression byte are not checked. An unsupported
    * version is reported with the corrected `ReportedVersion`, so the
    * exception carries the bytes as they came off the wire. */
  function CheckValidationHeader(h: seq<byte>): (r: Option<LocalException>)
    requires |h| == HeaderSize
    ensures r.Some? && r.value.UnsupportedProtocol? ==>
              h[..4] == Magic && r.value == UnsupportedProtocol(h[4], h[5], ProtocolMajor, ProtocolMinor)
    ensures r.Some? && r.value.UnsupportedEncoding? ==>
              h[..4] == Magic && h[4] == ProtocolMajor
              && r.value == UnsupportedEncoding(h[6], h[7], EncodingMajor, EncodingMinor)
  {
    if h[..4] != Magic then Some(BadMagic(h[..4]))
    else if h[4] != ProtocolMajor then
      Some(UnsupportedProtocol(ReportedVersion(JavaByte(h[4])), ReportedVersion(JavaByte(h[5])),
                               ProtocolMajor, ProtocolMinor))
    else if h[6] != EncodingMajor then
      Some(UnsupportedEncoding(ReportedVersion(JavaByte(h[6])), ReportedVersion(JavaByte(h[7])),
                               EncodingMajor, EncodingMinor))
    else if h[8] != ValidateConnectionMsg then Some(ConnectionNotValidated)
    else if Stream.DecodeInt(h[10..14]) != HeaderSize then Some(IllegalMessageSize)
    else None
  }

  /** The frame a server sends is exactly what a client accepts. */
  lemma ServerFrameValidatesClient()
    ensures CheckValidationHeader(ValidateConnectionFrame()) == None
  {
    var h := ValidateConnectionFrame();
    assert h[..4] == Magic;
    assert h[10..14] == Stream.IntBytes(HeaderSize);
    Stream.IntRoundTrip(HeaderSize);
  }

  /** A header is accepted iff its magic, both majors, its type and its size are
    * the expected ones. */
  lemma ValidationAcceptsExactly(h: seq<byte>)
    requires |h| == HeaderSize
    ensures CheckValidationHeader(h) == None <==>
              h[..4] == Magic && h[4] == ProtocolMajor && h[6] == EncodingMajor &&
              h[8] == ValidateConnectionMsg && Stream.DecodeInt(h[10..14]) == HeaderSize
  {
  }

  /** Whether a header is accepted does not depend on the minor versions or on
    * the compression byte (bytes 5, 7 and 9). */
  lemma ValidationIgnoresMinors(h: seq<byte>, pMinor: byte, eMinor: byte, compress: byte)
    requires |h| == HeaderSize
    ensures var h' := h[5 := pMinor][7 := eMinor][9 := compress];
            CheckValidationHeader(h').None? <==> CheckValidationHeader(h).None?
  {
    var h' := h[5 := pMinor][7 := eMinor][9 := compress];
    assert h'[..4] == h[..4];
    assert h'[10..14] == h[10..14];
  }

  /** Why validation fails, if it does: a datagram connection never fails; an
    * incoming connection fails only if writing its validation frame fails; an
    * outgoing one fails if reading the header fails or the header is rejected. */
  function ValidationFailure(cfg: Config, writes: nat, peer: Result<seq<byte>, LocalException>)
    : Option<LocalException>
    requires peer.Success? ==> |peer.value| == HeaderSize
  {
    if cfg.datagram then None
    else if cfg.incoming then cfg.writeFails(writes)
    else match peer
      case Failure(e) => Some(e)
      case Success(h) => CheckValidationHeader(h)
  }

  // ---------------------------------------------------------------------
  // State transitions
  // ---------------------------------------------------------------------

  /** The state `setState(state)` moves to from `cur` (datagram conversion of
    * Closing already applied): Active only from Holding or NotValidated,
    * Holding only from Active or NotValidated, never out of Closed. */
  function NextState(cur: State, target: State): State
  {
    if cur == target then cur
    else match target
      case NotValidated => cur
      case Active => if cur == Holding || cur == NotValidated then Active else cur
      case Holding => if cur == Active || cur == NotValidated then Holding else cur
      case Closing => if cur == Closed then cur else Closing
      case Closed => Closed
  }

  /** What a requested state becomes on this connection: a datagram connection
    * closes instead of closing gracefully. */
  function Effective(cfg: Config, target: State): State
  {
    if cfg.datagram && target == Closing then Closed else target
  }

  function Level(target: State): nat { if target == Closed then 0 else 1 }

  /** Records a write attempt; the frame reaches the peer only if the write succeeds. */
  function AfterWrite(s: Snapshot, cfg: Config, frame: seq<byte>): (r: Snapshot)
    ensures r.writes == s.writes + 1
  {
    if cfg.writeFails(s.writes).None? then s.(writes := s.writes + 1, sent := s.sent + [frame])
    else s.(writes := s.writes + 1)
  }

  /** `setState(state)`. */
  function SetStateSpec(s: Snapshot, cfg: Config, target: State): Snapshot
    requires target != NotValidated
    decreases Level(target), 1
  {
    var t := Effective(cfg, target);
    var ns := NextState(s.state, t);
    if ns == s.state then s
    else
      var s1 := s.(state := ns,
                   transceiverOpen := if ns == Closed && s.state == NotValidated then false else s.transceiverOpen);
      if ns == Closing && s1.dispatchCount == 0 then InitiateShutdownSpec(s1, cfg) else s1
  }

  /** `setState(state, ex)`: only Closing or Closed, and only the first
    * exception is recorded. */
  function SetStateExSpec(s: Snapshot, cfg: Config, target: State, ex: LocalException): Snapshot
    requires target == Closing || target == Closed
    decreases Level(target), 2
  {
    if s.state == target then s
    else
      var s1 := if s.exception.None? then s.(exception := Some(ex)) else s;
      SetStateSpec(s1, cfg, target)
  }

  /** `initiateShutdown` itself: send the close frame and, if that worked,
    * shut the transceiver down for writing.  A datagram connection sends
    * nothing. */
  function ShutdownWrite(s: Snapshot, cfg: Config): Snapshot
  {
    var s1 := s.(shutdownInitiated := true);
    if cfg.datagram then s1
    else if cfg.writeFails(s1.writes).None? then
      AfterWrite(s1, cfg, CloseConnectionFrame()).(transceiverShutdown := true)
    else AfterWrite(s1, cfg, CloseConnectionFrame())
  }

  /** What `initiateShutdown` throws. */
  function ShutdownFailure(s: Snapshot, cfg: Config): Option<LocalException>
  {
    if cfg.datagram then None else cfg.writeFails(s.writes)
  }

  /** `initiateShutdown` and its caller's handler, which closes the connection
    * with the failure. */
  function InitiateShutdownSpec(s: Snapshot, cfg: Config): Snapshot
    decreases 1, 0
  {
    match ShutdownFailure(s, cfg)
    case None => ShutdownWrite(s, cfg)
    case Some(ex) => SetStateExSpec(ShutdownWrite(s, cfg), cfg, Closed, ex)
  }

  /** The ACM deadline after activity at time `now`. */
  function Touch(s: Snapshot, cfg: Config, now: int): Snapshot
  {
    if cfg.acmTimeout > 0 then s.(acmDeadline := now + cfg.acmTimeout * 1000) else s
  }

  lemma NextStateActiveOnlyFrom(cur: State, target: State)
    requires NextState(cur, target) == Active && cur != Active
    ensures cur == Holding || cur == NotValidated
  {
  }

  lemma NextStateHoldingOnlyFrom(cur: State, target: State)
    requires NextState(cur, target) == Holding && cur != Holding
    ensures cur == Active || cur == NotValidated
  {
  }

  /** Re-entering a state is a no-op, and applying a request twice is applying it once. */
  lemma NextStateIdempotent(cur: State, target: State)
    ensures NextState(cur, cur) == cur
    ensures NextState(NextState(cur, target), target) == NextState(cur, target)
  {
  }

  /** The fields a transition leaves alone. */
  predicate SameWork(r: Snapshot, s: Snapshot)
  {
    r.requests == s.requests && r.asyncRequests == s.asyncRequests &&
    r.dispatchCount == s.dispatchCount && r.nextRequestId == s.nextRequestId &&
    r.batchStream == s.batchStream && r.batchRequestNum == s.batchRequestNum &&
    r.batchStreamInUse == s.batchStreamInUse && r.acmDeadline == s.acmDeadline
  }

  /** A transition touches only the state, the exception, the transceiver and
    * the shutdown write; an exception already recorded stays. */
  lemma {:induction false} SetStateFrame(s: Snapshot, cfg: Config, target: State)
    requires target != NotValidated
    ensures var r := SetStateSpec(s, cfg, target);
            SameWork(r, s) && (s.exception.Some? ==> r.exception == s.exception)
    decreases Level(target), 1
  {
    var t := Effective(cfg, target);
    var ns := NextState(s.state, t);
    if ns != s.state {
      var s1 := s.(state := ns,
                   transceiverOpen := if ns == Closed && s.state == NotValidated then false else s.transceiverOpen);
      if ns == Closing && s1.dispatchCount == 0 {
        ShutdownFrame(s1, cfg);
      }
    }
  }

  lemma {:induction false} ShutdownFrame(s: Snapshot, cfg: Config)
    ensures var r := InitiateShutdownSpec(s, cfg);
            SameWork(r, s) && (s.exception.Some? ==> r.exception == s.exception)
    decreases 1, 0
  {
    var s1 := s.(shutdownInitiated := true);
    if !cfg.datagram {
      var w := AfterWrite(s1, cfg, CloseConnectionFrame());
      if cfg.writeFails(s1.writes).Some? {
        var ex := cfg.writeFails(s.writes).value;
        assert InitiateShutdownSpec(s, cfg) == SetStateExSpec(w, cfg, Closed, ex);
        if w.state != Closed {
          SetStateFrame(if w.exception.None? then w.(exception := Some(ex)) else w, cfg, Closed);
        }
      } else {
        assert InitiateShutdownSpec(s, cfg) == w.(transceiverShutdown := true);
      }
    }
  }

  /** Closed is absorbing: no request, with or without an exception, leaves it
    * or changes anything. */
  lemma ClosedIsAbsorbing(s: Snapshot, cfg: Config, target: State, ex: LocalException)
    requires Inv(s, cfg) && s.state == Closed
    ensures target != NotValidated ==> SetStateSpec(s, cfg, target) == s
    ensures target in {Closing, Closed} ==> SetStateExSpec(s, cfg, target, ex) == s
  {
  }

  /** Once an exception is recorded it is never replaced. */
  lemma FirstExceptionKept(s: Snapshot, cfg: Config, target: State, ex: LocalException)
    requires target in {Closing, Closed} && s.exception.Some?
    ensures SetStateExSpec(s, cfg, target, ex).exception == s.exception
  {
    if s.state != target {
      SetStateFrame(s, cfg, target);
    }
  }

  /** A datagram connection never ends up Closing. */
  lemma DatagramNeverClosing(s: Snapshot, cfg: Config, target: State)
    requires cfg.datagram && s.state != Closing && target != NotValidated
    ensures SetStateSpec(s, cfg, target).state != Closing
  {
  }

  lemma ClosedKeepsFlags(s: Snapshot, cfg: Config)
    ensures SetStateSpec(s, cfg, Closed).shutdownInitiated == s.shutdownInitiated
    ensures SetStateSpec(s, cfg, Closed).transceiverShutdown == s.transceiverShutdown
    ensures SetStateSpec(s, cfg, Closed).sent == s.sent
    ensures SetStateSpec(s, cfg, Closed).state == Closed
  {
  }

  /** The close frame is attempted by a transition exactly when the transition
    * enters Closing with no dispatch in progress. */
  lemma {:induction false} ShutdownExactlyOnEnteringClosing(s: Snapshot, cfg: Config, target: State)
    requires Inv(s, cfg) && target != NotValidated
    ensures var r := SetStateSpec(s, cfg, target);
            (r.shutdownInitiated && !s.shutdownInitiated) <==>
              (s.state != Closing && s.state != Closed && Effective(cfg, target) == Closing && s.dispatchCount == 0)
  {
    var t := Effective(cfg, target);
    var ns := NextState(s.state, t);
    if ns != s.state {
      var s1 := s.(state := ns,
                   transceiverOpen := if ns == Closed && s.state == NotValidated then false else s.transceiverOpen);
      if ns == Closing && s1.dispatchCount == 0 {
        var s2 := s1.(shutdownInitiated := true);
        if !cfg.datagram && cfg.writeFails(s2.writes).Some? {
          var w := AfterWrite(s2, cfg, CloseConnectionFrame());
          ClosedKeepsFlags(w.(exception := if w.exception.None? then Some(cfg.writeFails(s2.writes).value) else w.exception), cfg);
        }
      }
    }
  }

  /** Activating and holding keep the invariant. */
  lemma SetStatePreservesInv(s: Snapshot, cfg: Config, target: State)
    requires Inv(s, cfg) && target in {Active, Holding}
    ensures Inv(SetStateSpec(s, cfg, target), cfg)
  {
  }

  /** `setState(state, ex)` keeps the invariant. */
  lemma {:induction false} SetStateExPreservesInv(s: Snapshot, cfg: Config, target: State, ex: LocalException)
    requires Inv(s, cfg) && target in {Closing, Closed}
    ensures Inv(SetStateExSpec(s, cfg, target, ex), cfg)
    decreases Level(target), 2
  {
    if s.state != target && s.state != Closed {
      var s1 := if s.exception.None? then s.(exception := Some(ex)) else s;
      var ns := Effective(cfg, target);
      assert NextState(s1.state, ns) == ns;
      var s2 := s1.(state := ns,
                    transceiverOpen := if ns == Closed && s1.state == NotValidated then false else s1.transceiverOpen);
      if ns == Closing && s2.dispatchCount == 0 {
        assert target == Closing;
        ShutdownPreservesInv(s2, cfg);
      } else {
        assert SetStateSpec(s1, cfg, target) == s2;
      }
    }
  }

  lemma {:induction false} ShutdownPreservesInv(s: Snapshot, cfg: Config)
    requires s.state == Closing && s.dispatchCount == 0 && !cfg.datagram
    requires Inv(s.(shutdownInitiated := true), cfg)
    ensures Inv(InitiateShutdownSpec(s, cfg), cfg)
    decreases 1, 0
  {
    var s1 := s.(shutdownInitiated := true);
    var w := AfterWrite(s1, cfg, CloseConnectionFrame());
    match cfg.writeFails(s1.writes)
    case None =>
      assert w.sent[|w.sent| - 1] == CloseConnectionFrame();
    case Some(ex) =>
      SetStateExPreservesInv(w, cfg, Closed, ex);
  }

  // ---------------------------------------------------------------------
  // Operations, each one atomic step over a snapshot
  // ---------------------------------------------------------------------

  /** `validate`: a server writes the validation frame, a client reads and
    * checks the peer's; on failure the connection is closed and the failure
    * thrown, otherwise it starts out Holding. */
  function ValidateSpec(s: Snapshot, cfg: Config, now: int, peer: Result<seq<byte>, LocalException>)
    : (Snapshot, Status<LocalException>)
    requires s.state == NotValidated
    requires peer.Success? ==> |peer.value| == HeaderSize
  {
    var base := if !cfg.datagram && cfg.incoming then AfterWrite(s, cfg, ValidateConnectionFrame()) else s;
    match ValidationFailure(cfg, s.writes, peer)
    case Some(ex) => (SetStateExSpec(base, cfg, Closed, ex), Raised(ex))
    case None => (SetStateSpec(Touch(base, cfg, now), cfg, Holding), Done)
  }

  /** `destroy(reason)`: 0 is adapter deactivation, 1 communicator destruction,
    * any other reason is ignored. */
  function DestroySpec(s: Snapshot, cfg: Config, reason: int): Snapshot
  {
    if reason == 0 then SetStateExSpec(s, cfg, Closing, ObjectAdapterDeactivated)
    else if reason == 1 then SetStateExSpec(s, cfg, Closing, CommunicatorDestroyed)
    else s
  }

  /** The active connection management idle test of `monitor`. */
  predicate Idle(s: Snapshot, cfg: Config)
  {
    cfg.acmTimeout > 0 && |s.requests| == 0 && |s.asyncRequests| == 0 &&
    !s.batchStreamInUse && |s.batchStream| == 0 && s.dispatchCount == 0
  }

  /** `monitor`: only an Active connection is checked; a timed-out
    * asynchronous request closes it, otherwise an idle connection past its
    * deadline closes gracefully.  `timedOut` are the callers whose timeout
    * has expired. */
  function MonitorSpec(s: Snapshot, cfg: Config, now: int, timedOut: set<Caller>): Snapshot
  {
    if s.state != Active then s
    else if exists id :: id in s.asyncRequests && s.asyncRequests[id] in timedOut then
      SetStateExSpec(s, cfg, Closed, Timeout)
    else if Idle(s, cfg) && now >= s.acmDeadline then
      SetStateExSpec(s, cfg, Closing, ConnectionTimeout)
    else s
  }

  /** The frame `sendRequest` writes: size at byte 10, request id at byte 14. */
  function RequestFrame(os: seq<byte>, requestId: int): (r: seq<byte>)
    requires |os| >= HeaderSize + 4
    ensures |r| == |os|
  {
    Stream.Patch(Stream.Patch(os, 10, Stream.IntBytes(|os|)), HeaderSize, Stream.IntBytes(requestId))
  }

  /** The first locked section of `sendRequest`: refuse once an exception is
    * recorded, otherwise fill in the size and, for a twoway request, a fresh
    * id registered in the request table.  A oneway request keeps id 0. */
  function BeginRequestSpec(s: Snapshot, cfg: Config, os: seq<byte>, out: Option<Caller>, now: int)
    : (Snapshot, Result<(seq<byte>, int), LocalException>)
    requires |os| >= HeaderSize + 4
  {
    if s.exception.Some? then (s, Failure(s.exception.value))
    else if out.None? then (Touch(s, cfg, now), Success((Stream.Patch(os, 10, Stream.IntBytes(|os|)), 0)))
    else
      var (requestId, next) := AllocateRequestId(s.nextRequestId);
      (Touch(s.(nextRequestId := next, requests := s.requests[requestId := out.value]), cfg, now),
       Success((RequestFrame(os, requestId), requestId)))
  }

  /** The first locked section of `sendAsyncRequest`: as `BeginRequestSpec`
    * for a twoway request, registered in the asynchronous table. */
  function BeginAsyncRequestSpec(s: Snapshot, cfg: Config, os: seq<byte>, out: Caller, now: int)
    : (Snapshot, Result<(seq<byte>, int), LocalException>)
    requires |os| >= HeaderSize + 4
  {
    if s.exception.Some? then (s, Failure(s.exception.value))
    else
      var (requestId, next) := AllocateRequestId(s.nextRequestId);
      (Touch(s.(nextRequestId := next, asyncRequests := s.asyncRequests[requestId := out]), cfg, now),
       Success((RequestFrame(os, requestId), requestId)))
  }

  /** A write under the send mutex: it fails with the recorded exception once
    * the transceiver is closed, otherwise as the transceiver says. */
  function TransmitSpec(s: Snapshot, cfg: Config, frame: seq<byte>): (Snapshot, Option<LocalException>)
  {
    if !s.transceiverOpen then (s, s.exception)
    else (AfterWrite(s, cfg, frame), cfg.writeFails(s.writes))
  }

  /** The handler of a failed request write: close the connection; a twoway
    * request throws the connection's exception only if its id is still in the
    * table (and removes it); a oneway request always throws. */
  function RequestFailedSpec(s: Snapshot, cfg: Config, out: Option<Caller>, requestId: int, ex: LocalException)
    : (Snapshot, Option<LocalException>)
  {
    var s1 := SetStateExSpec(s, cfg, Closed, ex);
    if out.None? then (s1, s1.exception)
    else if requestId in s1.requests then (s1.(requests := s1.requests - {requestId}), s1.exception)
    else (s1, None)
  }

  /** The handler of a failed asynchronous request write. */
  function AsyncRequestFailedSpec(s: Snapshot, cfg: Config, requestId: int, ex: LocalException)
    : (Snapshot, Option<LocalException>)
  {
    var s1 := SetStateExSpec(s, cfg, Closed, ex);
    if requestId in s1.asyncRequests then (s1.(asyncRequests := s1.asyncRequests - {requestId}), s1.exception)
    else (s1, None)
  }

  /** A batch stream is empty or holds at least a batch header. */
  predicate BatchShaped(b: seq<byte>)
  {
    |b| == 0 || |b| >= HeaderSize + 4
  }

  /** `prepareBatchRequest`, after its wait has ended: refuse once an exception
    * is recorded, otherwise hand the batch (with a header if it was empty) to
    * the caller in exchange for the caller's stream `os`. */
  function PrepareBatchSpec(s: Snapshot, os: seq<byte>): (Snapshot, Result<seq<byte>, LocalException>)
  {
    if s.exception.Some? then (s, Failure(s.exception.value))
    else
      var batch := if |s.batchStream| == 0 then RequestBatchHeader() else s.batchStream;
      (s.(batchStreamInUse := true, batchStream := os), Success(batch))
  }

  /** `finishBatchRequest`: take the batch `os` back, count one more request,
    * and return the stream swapped out of the connection. */
  function FinishBatchSpec(s: Snapshot, os: seq<byte>): (Snapshot, Result<seq<byte>, LocalException>)
  {
    if s.exception.Some? then (s, Failure(s.exception.value))
    else (s.(batchStream := os, batchRequestNum := s.batchRequestNum + 1, batchStreamInUse := false),
          Success(s.batchStream))
  }

  /** The frame a flush writes: size at byte 10, request count at byte 14. */
  function BatchFrame(b: seq<byte>, count: int): (r: seq<byte>)
    requires |b| >= HeaderSize + 4
    ensures |r| == |b|
  {
    Stream.Patch(Stream.Patch(b, 10, Stream.IntBytes(|b|)), HeaderSize, Stream.IntBytes(count))
  }

  /** The first locked section of `flushBatchRequests`, after its wait: refuse
    * once an exception is recorded, do nothing for an empty batch, otherwise
    * fill in size and count and mark the batch in use while it is written. */
  function BeginFlushSpec(s: Snapshot, cfg: Config, now: int): (Snapshot, Result<Option<seq<byte>>, LocalException>)
    requires BatchShaped(s.batchStream)
  {
    if s.exception.Some? then (s, Failure(s.exception.value))
    else if |s.batchStream| == 0 then (s, Success(None))
    else
      var frame := BatchFrame(s.batchStream, s.batchRequestNum);
      (Touch(s.(batchStream := frame, batchStreamInUse := true), cfg, now), Success(Some(frame)))
  }

  /** The last locked section of a successful flush: start an empty batch. */
  function FlushDoneSpec(s: Snapshot): Snapshot
  {
    s.(batchStream := [], batchRequestNum := 0, batchStreamInUse := false)
  }

  /** The handler of a failed flush: close and always throw; the batch stays
    * marked in use. */
  function FlushFailedSpec(s: Snapshot, cfg: Config, ex: LocalException): (Snapshot, Option<LocalException>)
  {
    var s1 := SetStateExSpec(s, cfg, Closed, ex);
    (s1, s1.exception)
  }

  /** One dispatch has ended: decrement the count and, if a graceful close is
    * waiting for it, start the shutdown.  The bool is true when the shutdown
    * write failed (then the caller's handler ran instead of the rest of its
    * locked section). */
  function EndDispatch(s: Snapshot, cfg: Config): (Snapshot, bool)
  {
    var s1 := s.(dispatchCount := s.dispatchCount - 1);
    if s1.state == Closing && s1.dispatchCount == 0 then
      (InitiateShutdownSpec(s1, cfg), ShutdownFailure(s1, cfg).Some?)
    else (s1, false)
  }

  /** `sendResponse`: write the reply with its size filled in (a failed write
    * closes the connection), end the dispatch, and note the activity. */
  function SendResponseSpec(s: Snapshot, cfg: Config, os: seq<byte>, now: int): Snapshot
    requires |os| >= HeaderSize
  {
    var (s1, failure) := TransmitSpec(s, cfg, Stream.Patch(os, 10, Stream.IntBytes(|os|)));
    var s2 := if failure.Some? then SetStateExSpec(s1, cfg, Closed, failure.value) else s1;
    var (s3, shutdownFailed) := EndDispatch(s2, cfg);
    if shutdownFailed then s3 else Touch(s3, cfg, now)
  }

  /** `sendNoResponse`: end the dispatch. */
  function SendNoResponseSpec(s: Snapshot, cfg: Config): Snapshot
  {
    EndDispatch(s, cfg).0
  }

  /** What a received message asks of the connection. */
  datatype Inbound =
    | Ignored
    | Dispatch(requestId: int, invokeNum: int)
    | Reply(requestId: int, caller: Caller, async: bool)
    | CloseWith(ex: LocalException)

  /** The locked section of `message`: how a message is classified.  A Closed
    * connection ignores everything; compression status 2 is refused; a close
    * message closes (a datagram connection with warnings on ignores it); a
    * request or batch is dropped while Closing; a reply must match a waiting
    * request; a validation message is ignored; any other type is refused. */
  function Classify(s: Snapshot, cfg: Config, msg: seq<byte>): Inbound
    requires |msg| >= HeaderSize
  {
    if s.state == Closed then Ignored
    else if msg[9] == 2 then CloseWith(CompressionNotSupported)
    else if msg[8] == CloseConnectionMsg then
      if cfg.datagram && cfg.warn then Ignored else CloseWith(CloseConnection)
    else if msg[8] == RequestMsg then
      if s.state == Closing then Ignored
      else match ReadInt(msg, HeaderSize)
        case None => CloseWith(UnmarshalOutOfBounds)
        case Some(requestId) => Dispatch(requestId, 1)
    else if msg[8] == RequestBatchMsg then
      if s.state == Closing then Ignored
      else match ReadInt(msg, HeaderSize)
        case None => CloseWith(UnmarshalOutOfBounds)
        case Some(n) => if n < 0 then CloseWith(NegativeSize) else Dispatch(0, n)
    else if msg[8] == ReplyMsg then
      match ReadInt(msg, HeaderSize)
      case None => CloseWith(UnmarshalOutOfBounds)
      case Some(requestId) =>
        if requestId in s.requests then Reply(requestId, s.requests[requestId], false)
        else if requestId in s.asyncRequests then Reply(requestId, s.asyncRequests[requestId], true)
        else CloseWith(UnknownRequestId)
    else if msg[8] == ValidateConnectionMsg then Ignored
    else CloseWith(UnknownMessage)
  }

  /** The effect of the locked section of `message`. */
  function MessageSpec(s: Snapshot, cfg: Config, msg: seq<byte>, now: int): Snapshot
    requires |msg| >= HeaderSize
  {
    if s.state == Closed then s
    else Apply(Touch(s, cfg, now), cfg, Classify(s, cfg, msg))
  }

  /** What the locked section of `message` does once the message is classified. */
  function Apply(s: Snapshot, cfg: Config, inbound: Inbound): Snapshot
  {
    match inbound
    case Ignored => s
    case Dispatch(_, n) => s.(dispatchCount := s.dispatchCount + n)
    case Reply(requestId, _, async) =>
      if async then s.(asyncRequests := s.asyncRequests - {requestId})
      else s.(requests := s.requests - {requestId})
    case CloseWith(ex) => SetStateExSpec(s, cfg, Closed, ex)
  }

  /** Whether the dispatched request expects a reply. */
  function ResponseExpected(cfg: Config, requestId: int): bool
  {
    !cfg.datagram && requestId != 0
  }

  /** The handler of `message` when an invocation raises: close, and give
    * back the dispatches that will never send a response. */
  function DispatchFailedSpec(s: Snapshot, cfg: Config, ex: LocalException, remaining: int): Snapshot
  {
    var s1 := SetStateExSpec(s, cfg, Closed, ex);
    s1.(dispatchCount := s1.dispatchCount - remaining)
  }

  /** What `finished` hands to the waiting requests once it drained them. */
  datatype Drained = Drained(requests: map<int, Caller>, asyncRequests: map<int, Caller>,
                             with: Option<LocalException>, thrown: Option<LocalException>)

  /** `finished`: a Closed connection closes its transceiver (`closeFailure`
    * is what closing raises); a Closing or Closed one drains both request
    * tables, to be completed with the connection's exception. */
  function FinishedSpec(s: Snapshot, closeFailure: Option<LocalException>): (Snapshot, Drained)
  {
    var s1 := if s.state == Closed then s.(transceiverOpen := false) else s;
    var thrown := if s.state == Closed then closeFailure else None;
    if s.state == Closed || s.state == Closing then
      (s1.(requests := map[], asyncRequests := map[]), Drained(s.requests, s.asyncRequests, s.exception, thrown))
    else (s1, Drained(map[], map[], s.exception, thrown))
  }

  // ---------------------------------------------------------------------
  // Every operation keeps the invariant
  // ---------------------------------------------------------------------

  lemma ValidatePreservesInv(s: Snapshot, cfg: Config, now: int, peer: Result<seq<byte>, LocalException>)
    requires Inv(s, cfg) && s.state == NotValidated
    requires peer.Success? ==> |peer.value| == HeaderSize
    ensures Inv(ValidateSpec(s, cfg, now, peer).0, cfg)
  {
    var base := if !cfg.datagram && cfg.incoming then AfterWrite(s, cfg, ValidateConnectionFrame()) else s;
    match ValidationFailure(cfg, s.writes, peer)
    case Some(ex) => SetStateExPreservesInv(base, cfg, Closed, ex);
    case None => SetStatePreservesInv(Touch(base, cfg, now), cfg, Holding);
  }

  lemma DestroyPreservesInv(s: Snapshot, cfg: Config, reason: int)
    requires Inv(s, cfg)
    ensures Inv(DestroySpec(s, cfg, reason), cfg)
  {
    if reason == 0 {
      SetStateExPreservesInv(s, cfg, Closing, ObjectAdapterDeactivated);
    } else if reason == 1 {
      SetStateExPreservesInv(s, cfg, Closing, CommunicatorDestroyed);
    }
  }

  lemma MonitorPreservesInv(s: Snapshot, cfg: Config, now: int, timedOut: set<Caller>)
    requires Inv(s, cfg)
    ensures Inv(MonitorSpec(s, cfg, now, timedOut), cfg)
  {
    if s.state == Active {
      if exists id :: id in s.asyncRequests && s.asyncRequests[id] in timedOut {
        SetStateExPreservesInv(s, cfg, Closed, Timeout);
      } else if Idle(s, cfg) && now >= s.acmDeadline {
        SetStateExPreservesInv(s, cfg, Closing, ConnectionTimeout);
      }
    }
  }

  lemma BeginRequestPreservesInv(s: Snapshot, cfg: Config, os: seq<byte>, out: Option<Caller>, now: int)
    requires Inv(s, cfg) && |os| >= HeaderSize + 4
    ensures Inv(BeginRequestSpec(s, cfg, os, out, now).0, cfg)
  {
    if s.exception.None? && out.Some? {
      AllocatedIdPositive(s.nextRequestId);
    }
  }

  lemma BeginAsyncRequestPreservesInv(s: Snapshot, cfg: Config, os: seq<byte>, out: Caller, now: int)
    requires Inv(s, cfg) && |os| >= HeaderSize + 4
    ensures Inv(BeginAsyncRequestSpec(s, cfg, os, out, now).0, cfg)
  {
    if s.exception.None? {
      AllocatedIdPositive(s.nextRequestId);
    }
  }

  lemma TransmitPreservesInv(s: Snapshot, cfg: Config, frame: seq<byte>)
    requires Inv(s, cfg)
    ensures Inv(TransmitSpec(s, cfg, frame).0, cfg)
    ensures TransmitSpec(s, cfg, frame).1 == (if s.transceiverOpen then cfg.writeFails(s.writes) else s.exception)
    ensures !s.transceiverOpen ==> TransmitSpec(s, cfg, frame).1.Some?
  {
    if s.transceiverOpen {
      var r := AfterWrite(s, cfg, frame);
      assert r.sent == s.sent || r.sent == s.sent + [frame];
      assert s.transceiverShutdown ==> CloseConnectionFrame() in r.sent;
    }
  }

  lemma RequestFailedPreservesInv(s: Snapshot, cfg: Config, out: Option<Caller>, requestId: int, ex: LocalException)
    requires Inv(s, cfg)
    ensures Inv(RequestFailedSpec(s, cfg, out, requestId, ex).0, cfg)
  {
    SetStateExPreservesInv(s, cfg, Closed, ex);
  }

  lemma AsyncRequestFailedPreservesInv(s: Snapshot, cfg: Config, requestId: int, ex: LocalException)
    requires Inv(s, cfg)
    ensures Inv(AsyncRequestFailedSpec(s, cfg, requestId, ex).0, cfg)
  {
    SetStateExPreservesInv(s, cfg, Closed, ex);
  }

  lemma PrepareBatchPreservesInv(s: Snapshot, cfg: Config, os: seq<byte>)
    requires Inv(s, cfg) && BatchShaped(os)
    ensures Inv(PrepareBatchSpec(s, os).0, cfg)
  {
  }

  lemma FinishBatchPreservesInv(s: Snapshot, cfg: Config, os: seq<byte>)
    requires Inv(s, cfg) && BatchShaped(os)
    ensures Inv(FinishBatchSpec(s, os).0, cfg)
  {
  }

  lemma BeginFlushPreservesInv(s: Snapshot, cfg: Config, now: int)
    requires Inv(s, cfg)
    ensures Inv(BeginFlushSpec(s, cfg, now).0, cfg)
  {
  }

  lemma FlushDonePreservesInv(s: Snapshot, cfg: Config)
    requires Inv(s, cfg)
    ensures Inv(FlushDoneSpec(s), cfg)
  {
  }

  lemma FlushFailedPreservesInv(s: Snapshot, cfg: Config, ex: LocalException)
    requires Inv(s, cfg)
    ensures Inv(FlushFailedSpec(s, cfg, ex).0, cfg)
  {
    SetStateExPreservesInv(s, cfg, Closed, ex);
  }

  lemma {:induction false} EndDispatchPreservesInv(s: Snapshot, cfg: Config)
    requires Inv(s, cfg) && s.dispatchCount > 0
    ensures Inv(EndDispatch(s, cfg).0, cfg)
  {
    var s1 := s.(dispatchCount := s.dispatchCount - 1);
    if s1.state == Closing && s1.dispatchCount == 0 {
      ShutdownPreservesInv(s1, cfg);
    }
  }

  lemma SendResponsePreservesInv(s: Snapshot, cfg: Config, os: seq<byte>, now: int)
    requires Inv(s, cfg) && s.dispatchCount > 0 && |os| >= HeaderSize
    ensures Inv(SendResponseSpec(s, cfg, os, now), cfg)
  {
    var (s1, failure) := TransmitSpec(s, cfg, Stream.Patch(os, 10, Stream.IntBytes(|os|)));
    var s2 := if failure.Some? then SetStateExSpec(s1, cfg, Closed, failure.value) else s1;
    if failure.Some? {
      SetStateExPreservesInv(s1, cfg, Closed, failure.value);
      SetStateFrame(s1.(exception := if s1.exception.None? then failure else s1.exception), cfg, Closed);
    }
    EndDispatchPreservesInv(s2, cfg);
  }

  lemma SendNoResponsePreservesInv(s: Snapshot, cfg: Config)
    requires Inv(s, cfg) && s.dispatchCount > 0
    ensures Inv(SendNoResponseSpec(s, cfg), cfg)
  {
    EndDispatchPreservesInv(s, cfg);
  }

  /** What a classification implies about the connection: only a
    * connection that is not Closed acts on a message, and only one that is
    * neither Closing nor Closed dispatches, a non-negative number of
    * invocations. */
  lemma ClassifyShape(s: Snapshot, cfg: Config, msg: seq<byte>)
    requires |msg| >= HeaderSize
    ensures var c := Classify(s, cfg, msg);
            && (!c.Ignored? ==> s.state != Closed)
            && (c.Dispatch? ==> s.state != Closing && c.invokeNum >= 0)
  {
  }

  lemma ApplyPreservesInv(s: Snapshot, cfg: Config, inbound: Inbound)
    requires Inv(s, cfg)
    requires inbound.Dispatch? ==> s.state != Closing && s.state != Closed && inbound.invokeNum >= 0
    ensures Inv(Apply(s, cfg, inbound), cfg)
  {
    match inbound
    case Ignored =>
    case Dispatch(_, n) =>
      assert !s.shutdownInitiated;
    case Reply(id, _, async) =>
      var r := Apply(s, cfg, inbound);
      assert r.requests.Keys <= s.requests.Keys && r.asyncRequests.Keys <= s.asyncRequests.Keys;
    case CloseWith(ex) =>
      SetStateExPreservesInv(s, cfg, Closed, ex);
  }

  lemma MessagePreservesInv(s: Snapshot, cfg: Config, msg: seq<byte>, now: int)
    requires Inv(s, cfg) && |msg| >= HeaderSize
    ensures Inv(MessageSpec(s, cfg, msg, now), cfg)
  {
    if s.state != Closed {
      ClassifyShape(s, cfg, msg);
      ApplyPreservesInv(Touch(s, cfg, now), cfg, Classify(s, cfg, msg));
    }
  }

  lemma DispatchFailedPreservesInv(s: Snapshot, cfg: Config, ex: LocalException, remaining: int)
    requires Inv(s, cfg) && 0 < remaining <= s.dispatchCount
    ensures Inv(DispatchFailedSpec(s, cfg, ex, remaining), cfg)
  {
    SetStateExPreservesInv(s, cfg, Closed, ex);
    SetStateExFrame(s, cfg, Closed, ex);
  }

  lemma FinishedPreservesInv(s: Snapshot, cfg: Config, closeFailure: Option<LocalException>)
    requires Inv(s, cfg)
    ensures Inv(FinishedSpec(s, closeFailure).0, cfg)
  {
  }

  lemma SetStateExFrame(s: Snapshot, cfg: Config, target: State, ex: LocalException)
    requires target in {Closing, Closed}
    ensures SameWork(SetStateExSpec(s, cfg, target, ex), s)
  {
    if s.state != target {
      SetStateFrame(if s.exception.None? then s.(exception := Some(ex)) else s, cfg, target);
    }
  }

  // ---------------------------------------------------------------------
  // What the operations promise
  // ---------------------------------------------------------------------

  /** Validation succeeds exactly when no failure is found, and then the
    * connection is Holding; a failure closes the connection (an unvalidated
    * connection closes its transceiver at once) and is what is thrown. */
  lemma ValidateOutcome(s: Snapshot, cfg: Config, now: int, peer: Result<seq<byte>, LocalException>)
    requires Inv(s, cfg) && s.state == NotValidated
    requires peer.Success? ==> |peer.value| == HeaderSize
    ensures var (r, status) := ValidateSpec(s, cfg, now, peer);
            (status == Done <==> ValidationFailure(cfg, s.writes, peer) == None) &&
            (status == Done ==> r.state == Holding && r.transceiverOpen) &&
            (status.Raised? ==> r.state == Closed && !r.transceiverOpen && r.exception == Some(status.error))
  {
  }

  /** A client accepts a peer that sends exactly the server's validation frame. */
  lemma ClientAcceptsServerFrame(s: Snapshot, cfg: Config, now: int)
    requires Inv(s, cfg) && s.state == NotValidated && !cfg.incoming
    ensures ValidateSpec(s, cfg, now, Success(ValidateConnectionFrame())).1 == Done
  {
    ServerFrameValidatesClient();
  }

  /** Destroying an active or holding connection starts a graceful close with
    * the reason as its exception (a datagram connection closes at once); the
    * close frame is attempted when nothing is being dispatched. */
  lemma DestroyStartsClosing(s: Snapshot, cfg: Config, reason: int)
    requires Inv(s, cfg) && (s.state == Active || s.state == Holding) && (reason == 0 || reason == 1)
    ensures var r := DestroySpec(s, cfg, reason);
            r.state in {Closing, Closed} &&
            r.exception == Some(if reason == 0 then ObjectAdapterDeactivated else CommunicatorDestroyed) &&
            (!cfg.datagram && r.state == Closed ==> s.dispatchCount == 0 && r.shutdownInitiated) &&
            (s.dispatchCount == 0 && !cfg.datagram ==> r.shutdownInitiated)
  {
    var ex := if reason == 0 then ObjectAdapterDeactivated else CommunicatorDestroyed;
    SetStateExFrame(s, cfg, Closing, ex);
    DestroyDetail(s, cfg, ex);
  }

  lemma DestroyDetail(s: Snapshot, cfg: Config, ex: LocalException)
    requires Inv(s, cfg) && (s.state == Active || s.state == Holding)
    ensures var r := SetStateExSpec(s, cfg, Closing, ex);
            r.state in {Closing, Closed} && r.exception == Some(ex) &&
            (!cfg.datagram && r.state == Closed ==> s.dispatchCount == 0 && r.shutdownInitiated) &&
            (s.dispatchCount == 0 && !cfg.datagram ==> r.shutdownInitiated)
  {
    var s1 := s.(exception := Some(ex));
    if !cfg.datagram {
      var s2 := s1.(state := Closing);
      if s.dispatchCount == 0 {
        var s3 := s2.(shutdownInitiated := true);
        if cfg.writeFails(s3.writes).Some? {
          ClosedKeepsFlags(AfterWrite(s3, cfg, CloseConnectionFrame()), cfg);
        }
      }
    }
  }

  /** `monitor` changes a connection only when it is Active, and then either
    * closes it because an asynchronous request timed out, or closes it
    * gracefully because it was idle past its deadline. */
  lemma MonitorClosesOnlyWhen(s: Snapshot, cfg: Config, now: int, timedOut: set<Caller>)
    requires Inv(s, cfg)
    ensures var r := MonitorSpec(s, cfg, now, timedOut);
            r != s ==>
              s.state == Active &&
              ((r.exception == Some(Timeout) && exists id :: id in s.asyncRequests && s.asyncRequests[id] in timedOut) ||
               (r.exception == Some(ConnectionTimeout) && Idle(s, cfg) && now >= s.acmDeadline))
  {
    if s.state == Active {
      if exists id :: id in s.asyncRequests && s.asyncRequests[id] in timedOut {
        SetStateFrame(s.(exception := Some(Timeout)), cfg, Closed);
      } else if Idle(s, cfg) && now >= s.acmDeadline {
        SetStateFrame(s.(exception := Some(ConnectionTimeout)), cfg, Closing);
      }
    }
  }

  /** A twoway request whose write failed is either thrown by the send path or
    * completed by `finished`, never both, whichever of the two runs first. */
  lemma NeverThrownAndCompleted(s: Snapshot, cfg: Config, out: Caller, requestId: int, ex: LocalException,
                                closeFailure: Option<LocalException>)
    requires Inv(s, cfg)
    ensures var (a, thrown) := RequestFailedSpec(s, cfg, Some(out), requestId, ex);
            thrown.Some? ==> requestId !in FinishedSpec(a, closeFailure).1.requests
    ensures var (b, drained) := FinishedSpec(s, closeFailure);
            requestId in drained.requests ==> RequestFailedSpec(b, cfg, Some(out), requestId, ex).1 == None
  {
    ThrownThenNotDrained(s, cfg, out, requestId, ex, closeFailure);
    DrainedThenNotThrown(s, cfg, out, requestId, ex, closeFailure);
  }

  lemma ThrownThenNotDrained(s: Snapshot, cfg: Config, out: Caller, requestId: int, ex: LocalException,
                             closeFailure: Option<LocalException>)
    requires Inv(s, cfg)
    ensures var (a, thrown) := RequestFailedSpec(s, cfg, Some(out), requestId, ex);
            thrown.Some? ==> requestId !in FinishedSpec(a, closeFailure).1.requests
  {
    CloseWithCloses(s, cfg, ex);
  }

  lemma DrainedThenNotThrown(s: Snapshot, cfg: Config, out: Caller, requestId: int, ex: LocalException,
                             closeFailure: Option<LocalException>)
    ensures var (b, drained) := FinishedSpec(s, closeFailure);
            requestId in drained.requests ==> RequestFailedSpec(b, cfg, Some(out), requestId, ex).1 == None
  {
    var (b, drained) := FinishedSpec(s, closeFailure);
    if requestId in drained.requests {
      SetStateExFrame(b, cfg, Closed, ex);
    }
  }

  /** The same for asynchronous requests. */
  lemma NeverThrownAndCompletedAsync(s: Snapshot, cfg: Config, requestId: int, ex: LocalException,
                                     closeFailure: Option<LocalException>)
    requires Inv(s, cfg)
    ensures var (a, thrown) := AsyncRequestFailedSpec(s, cfg, requestId, ex);
            thrown.Some? ==> requestId !in FinishedSpec(a, closeFailure).1.asyncRequests
    ensures var (b, drained) := FinishedSpec(s, closeFailure);
            requestId in drained.asyncRequests ==> AsyncRequestFailedSpec(b, cfg, requestId, ex).1 == None
  {
    CloseWithCloses(s, cfg, ex);
    AsyncDrainedThenNotThrown(s, cfg, requestId, ex, closeFailure);
  }

  lemma AsyncDrainedThenNotThrown(s: Snapshot, cfg: Config, requestId: int, ex: LocalException,
                                  closeFailure: Option<LocalException>)
    ensures var (b, drained) := FinishedSpec(s, closeFailure);
            requestId in drained.asyncRequests ==> AsyncRequestFailedSpec(b, cfg, requestId, ex).1 == None
  {
    var (b, drained) := FinishedSpec(s, closeFailure);
    if requestId in drained.asyncRequests {
      SetStateExFrame(b, cfg, Closed, ex);
    }
  }

  /** A failed oneway request or flush is always reported, with the
    * connection's first exception. */
  lemma OnewayFailureAlwaysThrown(s: Snapshot, cfg: Config, ex: LocalException)
    requires Inv(s, cfg)
    ensures RequestFailedSpec(s, cfg, None, 0, ex).1 == (if s.exception.Some? then s.exception else Some(ex))
    ensures FlushFailedSpec(s, cfg, ex).1 == (if s.exception.Some? then s.exception else Some(ex))
  {
    if s.exception.Some? {
      FirstExceptionKept(s, cfg, Closed, ex);
    } else {
      SetStateExPreservesInv(s, cfg, Closed, ex);
    }
  }

  /** A registered twoway request is in the table under a fresh positive id
    * that is written into the frame, together with the frame's size. */
  lemma BeginRequestRegisters(s: Snapshot, cfg: Config, os: seq<byte>, out: Caller, now: int)
    requires Inv(s, cfg) && s.exception.None? && HeaderSize + 4 <= |os| <= MaxInt32
    ensures var (r, res) := BeginRequestSpec(s, cfg, os, Some(out), now);
            res.Success? && var (frame, requestId) := res.value;
            requestId > 0 && requestId == AllocateRequestId(s.nextRequestId).0 &&
            r.requests == s.requests[requestId := out] && r.asyncRequests == s.asyncRequests &&
            Stream.DecodeInt(frame[10..14]) == |os| &&
            Stream.DecodeInt(frame[14..18]) == requestId
  {
    var (requestId, next) := AllocateRequestId(s.nextRequestId);
    AllocatedIdPositive(s.nextRequestId);
    RequestFrameReadsBack(os, requestId);
  }

  /** The size and the id can be read back from a request frame. */
  lemma RequestFrameReadsBack(os: seq<byte>, requestId: int)
    requires HeaderSize + 4 <= |os| <= MaxInt32 && IsInt32(requestId)
    ensures var frame := RequestFrame(os, requestId);
            Stream.DecodeInt(frame[10..14]) == |os| && Stream.DecodeInt(frame[14..18]) == requestId &&
            frame[..10] == os[..10] && frame[18..] == os[18..]
  {
    var f1 := Stream.Patch(os, 10, Stream.IntBytes(|os|));
    var frame := RequestFrame(os, requestId);
    assert frame[10..14] == f1[10..14];
    Stream.IntRoundTrip(|os|);
    Stream.IntRoundTrip(requestId);
  }

  /** The size and the request count can be read back from a batch frame. */
  lemma BatchFrameReadsBack(b: seq<byte>, count: int)
    requires HeaderSize + 4 <= |b| <= MaxInt32 && IsInt32(count)
    ensures var frame := BatchFrame(b, count);
            Stream.DecodeInt(frame[10..14]) == |b| && Stream.DecodeInt(frame[14..18]) == count &&
            frame[..10] == b[..10] && frame[18..] == b[18..]
  {
    var f1 := Stream.Patch(b, 10, Stream.IntBytes(|b|));
    var frame := BatchFrame(b, count);
    assert frame[10..14] == f1[10..14];
    Stream.IntRoundTrip(|b|);
    Stream.IntRoundTrip(count);
  }

  /** Preparing and finishing a batch request hands the caller the batch
    * (headed by a batch header when it was empty), takes back what the caller
    * appended, gives back the caller's own stream, and counts one request. */
  lemma BatchSwapRoundTrip(s: Snapshot, os: seq<byte>, request: seq<byte>)
    requires s.exception.None? && !s.batchStreamInUse
    ensures var (s1, given) := PrepareBatchSpec(s, os);
            given.Success? && s1.batchStreamInUse &&
            given.value == (if |s.batchStream| == 0 then RequestBatchHeader() else s.batchStream) &&
            var (s2, back) := FinishBatchSpec(s1, given.value + request);
            back == Success(os) && s2.batchStream == given.value + request &&
            s2.batchRequestNum == s.batchRequestNum + 1 && !s2.batchStreamInUse
  {
  }

  /** A successful flush leaves an empty batch; a failed one closes the
    * connection and leaves the batch marked in use, so later batch requests
    * fail with the connection's exception instead of waiting. */
  lemma FlushOutcome(s: Snapshot, cfg: Config, now: int, ex: LocalException)
    requires Inv(s, cfg) && s.exception.None? && |s.batchStream| > 0
    ensures var (s1, res) := BeginFlushSpec(s, cfg, now);
            res == Success(Some(s1.batchStream)) && s1.batchStreamInUse &&
            FlushDoneSpec(s1).batchStream == [] && FlushDoneSpec(s1).batchRequestNum == 0 &&
            var (s2, thrown) := FlushFailedSpec(s1, cfg, ex);
            s2.state == Closed && s2.batchStreamInUse && thrown == Some(ex) &&
            PrepareBatchSpec(s2, []).1 == Failure(ex)
  {
    var (s1, res) := BeginFlushSpec(s, cfg, now);
    SetStateExFrame(s1, cfg, Closed, ex);
    SetStateExPreservesInv(s1, cfg, Closed, ex);
  }

  /** Ending a dispatch attempts the close frame exactly when the connection
    * is Closing and this was the last dispatch. */
  lemma {:induction false} EndDispatchShutdownExactly(s: Snapshot, cfg: Config)
    requires Inv(s, cfg) && s.dispatchCount > 0
    ensures var r := EndDispatch(s, cfg).0;
            (r.shutdownInitiated && !s.shutdownInitiated) <==> (s.state == Closing && s.dispatchCount == 1)
  {
    var s1 := s.(dispatchCount := s.dispatchCount - 1);
    if s1.state == Closing && s1.dispatchCount == 0 {
      var s2 := s1.(shutdownInitiated := true);
      if !cfg.datagram && cfg.writeFails(s2.writes).Some? {
        var w := AfterWrite(s2, cfg, CloseConnectionFrame());
        var ex := cfg.writeFails(s2.writes).value;
        assert SetStateExSpec(w, cfg, Closed, ex) == SetStateSpec(w, cfg, Closed);
        ClosedKeepsFlags(w, cfg);
        assert EndDispatch(s, cfg).0 == SetStateSpec(w, cfg, Closed);
      }
    }
  }

  /** A message arriving on a Closed connection changes nothing and is ignored. */
  lemma ClosedIgnoresMessages(s: Snapshot, cfg: Config, msg: seq<byte>, now: int)
    requires s.state == Closed && |msg| >= HeaderSize
    ensures MessageSpec(s, cfg, msg, now) == s && Classify(s, cfg, msg) == Ignored
  {
  }

  /** Every protocol error closes the connection, and the first exception
    * recorded is the one kept. */
  lemma MessageErrorsClose(s: Snapshot, cfg: Config, msg: seq<byte>, now: int)
    requires Inv(s, cfg) && |msg| >= HeaderSize && Classify(s, cfg, msg).CloseWith?
    ensures var r := MessageSpec(s, cfg, msg, now);
            r.state == Closed &&
            r.exception == (if s.exception.Some? then s.exception else Some(Classify(s, cfg, msg).ex))
  {
    ClassifyShape(s, cfg, msg);
    CloseWithCloses(Touch(s, cfg, now), cfg, Classify(s, cfg, msg).ex);
  }

  lemma CloseWithCloses(s: Snapshot, cfg: Config, ex: LocalException)
    requires Inv(s, cfg)
    ensures var r := SetStateExSpec(s, cfg, Closed, ex);
            r.state == Closed && r.exception == (if s.exception.Some? then s.exception else Some(ex))
  {
    if s.exception.Some? {
      FirstExceptionKept(s, cfg, Closed, ex);
    }
    SetStateExPreservesInv(s, cfg, Closed, ex);
  }

  /** Requests and batches are dropped, and not counted, while Closing. */
  lemma RequestsDroppedWhileClosing(s: Snapshot, cfg: Config, msg: seq<byte>, now: int)
    requires s.state == Closing && |msg| >= HeaderSize && msg[9] != 2
    requires msg[8] == RequestMsg || msg[8] == RequestBatchMsg
    ensures Classify(s, cfg, msg) == Ignored
    ensures MessageSpec(s, cfg, msg, now).dispatchCount == s.dispatchCount
  {
  }

  /** A dispatch adds exactly its number of invocations to the count; a
    * single request carries the id from the message, a batch id 0 (no reply). */
  lemma DispatchCounts(s: Snapshot, cfg: Config, msg: seq<byte>, now: int)
    requires |msg| >= HeaderSize && Classify(s, cfg, msg).Dispatch?
    ensures var d := Classify(s, cfg, msg);
            s.state != Closed && s.state != Closing && d.invokeNum >= 0 &&
            MessageSpec(s, cfg, msg, now).dispatchCount == s.dispatchCount + d.invokeNum &&
            (msg[8] == RequestMsg ==> d.invokeNum == 1 && d.requestId == Stream.DecodeInt(msg[14..18])) &&
            (msg[8] == RequestBatchMsg ==> d.requestId == 0 && d.invokeNum == Stream.DecodeInt(msg[14..18])) &&
            (ResponseExpected(cfg, d.requestId) ==> msg[8] == RequestMsg)
  {
  }

  /** A reply completes exactly the request registered under its id, which
    * leaves its table; everything else stays registered. */
  lemma ReplyCompletesItsRequest(s: Snapshot, cfg: Config, msg: seq<byte>, now: int)
    requires |msg| >= HeaderSize && Classify(s, cfg, msg).Reply?
    ensures var d := Classify(s, cfg, msg);
            var r := MessageSpec(s, cfg, msg, now);
            d.requestId == Stream.DecodeInt(msg[14..18]) &&
            (!d.async ==> d.requestId in s.requests && s.requests[d.requestId] == d.caller &&
                          r.requests == s.requests - {d.requestId} && r.asyncRequests == s.asyncRequests) &&
            (d.async ==> d.requestId !in s.requests && d.requestId in s.asyncRequests &&
                         s.asyncRequests[d.requestId] == d.caller &&
                         r.asyncRequests == s.asyncRequests - {d.requestId} && r.requests == s.requests)
  {
  }

  /** A reply whose id matches no waiting request closes the connection. */
  lemma UnknownReplyCloses(s: Snapshot, cfg: Config, msg: seq<byte>)
    requires |msg| >= HeaderSize + 4 && s.state != Closed && msg[9] != 2 && msg[8] == ReplyMsg
    requires Stream.DecodeInt(msg[14..18]) !in s.requests && Stream.DecodeInt(msg[14..18]) !in s.asyncRequests
    ensures Classify(s, cfg, msg) == CloseWith(UnknownRequestId)
  {
  }

  /** `finished` on a Closing or Closed connection hands every waiting
    * request to be completed with the connection's exception, leaving both
    * tables empty, and a Closed one also closes its transceiver; on a
    * connection in any other state it changes nothing and hands nothing
    * over. */
  lemma FinishedDrains(s: Snapshot, closeFailure: Option<LocalException>)
    ensures var (r, d) := FinishedSpec(s, closeFailure);
            s.state in {Closing, Closed} ==>
              d.requests == s.requests && d.asyncRequests == s.asyncRequests && d.with == s.exception &&
              r.requests == map[] && r.asyncRequests == map[] &&
              (s.state == Closed ==> !r.transceiverOpen && d.thrown == closeFailure) &&
              (s.state == Closing ==> r.transceiverOpen == s.transceiverOpen && d.thrown == None)
    ensures var (r, d) := FinishedSpec(s, closeFailure);
            s.state !in {Closing, Closed} ==>
              r == s && d.requests == map[] && d.asyncRequests == map[] && d.thrown == None
  {
  }

  // ---------------------------------------------------------------------
  // The connection object
  // ---------------------------------------------------------------------

  /** `destroy` reasons. */
  const ObjectAdapterDeactivatedReason: int := 0
  const CommunicatorDestroyedReason: int := 1

  class ConnectionI {
    const cfg: Config
    var state: State
    var exception: Option<LocalException>
    var dispatchCount: int
    var nextRequestId: int32
    var requests: map<int, Caller>
    var asyncRequests: map<int, Caller>
    var batchStream: seq<byte>
    var batchRequestNum: int
    var batchStreamInUse: bool
    var acmDeadline: int
    var transceiverOpen: bool
    var sent: seq<seq<byte>>
    var writes: nat
    var shutdownInitiated: bool
    var transceiverShutdown: bool

    function Snap(): Snapshot
      reads this
    {
      Snapshot(state, exception, dispatchCount, nextRequestId, requests, asyncRequests,
               batchStream, batchRequestNum, batchStreamInUse, acmDeadline,
               transceiverOpen, sent, writes, shutdownInitiated, transceiverShutdown)
    }

    predicate Valid()
      reads this
    {
      Inv(Snap(), cfg)
    }

    /** A new connection is not validated, has no pending request, and hands
      * out request id 1 first; a datagram connection has no idle timeout. */
    constructor(datagram: bool, incoming: bool, warn: bool, connectionIdleTime: int,
                writeFails: nat -> Option<LocalException>)
      ensures Valid()
      ensures cfg == Config(datagram, incoming, warn, if datagram then 0 else connectionIdleTime, writeFails)
      ensures Snap() == Snapshot(NotValidated, None, 0, 1, map[], map[], [], 0, false, 0, true, [], 0, false, false)
    {
      cfg := Config(datagram, incoming, warn, if datagram then 0 else connectionIdleTime, writeFails);
      state := NotValidated;
      exception := None;
      dispatchCount := 0;
      nextRequestId := 1;
      requests := map[];
      asyncRequests := map[];
      batchStream := [];
      batchRequestNum := 0;
      batchStreamInUse := false;
      acmDeadline := 0;
      transceiverOpen := true;
      sent := [];
      writes := 0;
      shutdownInitiated := false;
      transceiverShutdown := false;
    }

    /** One write on the transceiver. */
    method Write(frame: seq<byte>) returns (failure: Option<LocalException>)
      modifies this
      ensures failure == cfg.writeFails(old(writes))
      ensures Snap() == AfterWrite(old(Snap()), cfg, frame)
    {
      failure := cfg.writeFails(writes);
      writes := writes + 1;
      if failure.None? {
        sent := sent + [frame];
      }
    }

    /** A write under the send mutex, refused once the transceiver is closed. */
    method Transmit(frame: seq<byte>) returns (failure: Option<LocalException>)
      requires Valid()
      modifies this
      ensures Valid()
      ensures (Snap(), failure) == TransmitSpec(old(Snap()), cfg, frame)
      ensures failure.Some? || old(transceiverOpen)
    {
      TransmitPreservesInv(Snap(), cfg, frame);
      if !transceiverOpen {
        failure := exception;
        return;
      }
      failure := Write(frame);
    }

    method NoteActivity(now: int)
      modifies this
      ensures Snap() == Touch(old(Snap()), cfg, now)
    {
      if cfg.acmTimeout > 0 {
        acmDeadline := now + cfg.acmTimeout * 1000;
      }
    }

    method SetState(target: State)
      requires target != NotValidated
      modifies this
      ensures Snap() == SetStateSpec(old(Snap()), cfg, target)
      decreases Level(target), 1
    {
      var t := target;
      if cfg.datagram && t == Closing {
        t := Closed;
      }
      if state == t {
        return;
      }
      match t {
        case Active =>
          if state != Holding && state != NotValidated {
            return;
          }
        case Holding =>
          if state != Active && state != NotValidated {
            return;
          }
        case Closing =>
          if state == Closed {
            return;
          }
        case Closed =>
          if state == NotValidated {
            transceiverOpen := false;
          }
      }
      state := t;
      if state == Closing && dispatchCount == 0 {
        var failure := InitiateShutdown();
        if failure.Some? {
          SetStateEx(Closed, failure.value);
        }
      }
    }

    method SetStateEx(target: State, ex: LocalException)
      requires target == Closing || target == Closed
      modifies this
      ensures Snap() == SetStateExSpec(old(Snap()), cfg, target, ex)
      decreases Level(target), 2
    {
      ghost var s0 := Snap();
      if state == target {
        return;
      }
      if exception.None? {
        exception := Some(ex);
      }
      ghost var s1 := Snap();
      SetState(target);
      assert SetStateExSpec(s0, cfg, target, ex) == SetStateSpec(s1, cfg, target);
    }

    method InitiateShutdown() returns (failure: Option<LocalException>)
      modifies this
      ensures Snap() == ShutdownWrite(old(Snap()), cfg)
      ensures failure == ShutdownFailure(old(Snap()), cfg)
    {
      shutdownInitiated := true;
      failure := None;
      if !cfg.datagram {
        failure := Write(CloseConnectionFrame());
        if failure.None? {
          transceiverShutdown := true;
        }
      }
    }

    method Validate(now: int, peer: Result<seq<byte>, LocalException>) returns (status: Status<LocalException>)
      requires Valid() && state == NotValidated
      requires peer.Success? ==> |peer.value| == HeaderSize
      modifies this
      ensures Valid()
      ensures (Snap(), status) == ValidateSpec(old(Snap()), cfg, now, peer)
    {
      ValidatePreservesInv(Snap(), cfg, now, peer);
      var failure: Option<LocalException> := None;
      if !cfg.datagram {
        if cfg.incoming {
          failure := Write(ValidateConnectionFrame());
        } else {
          match peer
          case Failure(e) => failure := Some(e);
          case Success(h) => failure := CheckValidationHeader(h);
        }
      }
      if failure.Some? {
        SetStateEx(Closed, failure.value);
        return Raised(failure.value);
      }
      NoteActivity(now);
      SetState(Holding);
      return Done;
    }

    method Activate()
      requires Valid()
      modifies this
      ensures Valid() && Snap() == SetStateSpec(old(Snap()), cfg, Active)
    {
      SetStatePreservesInv(Snap(), cfg, Active);
      SetState(Active);
    }

    method Hold()
      requires Valid()
      modifies this
      ensures Valid() && Snap() == SetStateSpec(old(Snap()), cfg, Holding)
    {
      SetStatePreservesInv(Snap(), cfg, Holding);
      SetState(Holding);
    }

    method Destroy(reason: int)
      requires Valid()
      modifies this
      ensures Valid() && Snap() == DestroySpec(old(Snap()), cfg, reason)
    {
      DestroyPreservesInv(Snap(), cfg, reason);
      if reason == ObjectAdapterDeactivatedReason {
        SetStateEx(Closing, ObjectAdapterDeactivated);
      } else if reason == CommunicatorDestroyedReason {
        SetStateEx(Closing, CommunicatorDestroyed);
      }
    }

    function IsValidated(): (r: bool)
      reads this
      ensures r <==> state != NotValidated
    {
      Ordinal(state) > Ordinal(NotValidated)
    }

    function IsDestroyed(): (r: bool)
      reads this
      ensures r <==> state == Closing || state == Closed
    {
      Ordinal(state) >= Ordinal(Closing)
    }

    /** A finished connection is Closed, with its transceiver closed and no
      * dispatch left. */
    function IsFinished(): (r: bool)
      requires Valid()
      reads this
      ensures r ==> state == Closed && !transceiverOpen && dispatchCount == 0
      ensures state == Closed && !transceiverOpen && dispatchCount == 0 ==> r
    {
      !transceiverOpen && dispatchCount == 0
    }

    method Monitor(now: int, timedOut: set<Caller>)
      requires Valid()
      modifies this
      ensures Valid() && Snap() == MonitorSpec(old(Snap()), cfg, now, timedOut)
    {
      MonitorPreservesInv(Snap(), cfg, now, timedOut);
      if state != Active {
        return;
      }
      var pending := asyncRequests.Keys;
      var found := false;
      while pending != {} && !found
        invariant unchanged(this)
        invariant pending <= asyncRequests.Keys
        invariant found ==> exists id :: id in asyncRequests && asyncRequests[id] in timedOut
        invariant !found ==> forall id :: id in asyncRequests && id !in pending ==> asyncRequests[id] !in timedOut
        decreases |pending|
      {
        var id := Pick(pending);
        if asyncRequests[id] in timedOut {
          found := true;
        }
        pending := pending - {id};
      }
      if found {
        SetStateEx(Closed, Timeout);
        return;
      }
      if cfg.acmTimeout > 0 && |requests| == 0 && |asyncRequests| == 0 &&
         !batchStreamInUse && |batchStream| == 0 && dispatchCount == 0
      {
        if now >= acmDeadline {
          SetStateEx(Closing, ConnectionTimeout);
        }
      }
    }

    /** Hands out the next request id, skipping 0 and the negative ids after
      * the counter wrapped. */
    method NewRequestId() returns (requestId: int32)
      modifies this
      ensures (requestId, nextRequestId) == AllocateRequestId(old(nextRequestId))
      ensures Snap() == old(Snap()).(nextRequestId := nextRequestId)
    {
      requestId := nextRequestId;
      nextRequestId := Wrap32(nextRequestId + 1);
      if requestId <= 0 {
        nextRequestId := 1;
        requestId := nextRequestId;
        nextRequestId := Wrap32(nextRequestId + 1);
      }
    }

    /** The first locked section of `sendRequest` (`out` is None for a oneway
      * request).  The frame and id it returns go to `Transmit`, and a failed
      * write to `RequestFailed`. */
    method BeginRequest(os: seq<byte>, out: Option<Caller>, now: int)
      returns (r: Result<(seq<byte>, int), LocalException>)
      requires Valid() && state != NotValidated && |os| >= HeaderSize + 4
      requires !(out.Some? && cfg.datagram)
      modifies this
      ensures Valid() && (Snap(), r) == BeginRequestSpec(old(Snap()), cfg, os, out, now)
    {
      BeginRequestPreservesInv(Snap(), cfg, os, out, now);
      if exception.Some? {
        return Failure(exception.value);
      }
      var frame := Stream.Patch(os, 10, Stream.IntBytes(|os|));
      var requestId := 0;
      if out.Some? {
        requestId := NewRequestId();
        frame := Stream.Patch(frame, HeaderSize, Stream.IntBytes(requestId));
        requests := requests[requestId := out.value];
      }
      NoteActivity(now);
      return Success((frame, requestId));
    }

    /** The handler of a failed `sendRequest` write. */
    method RequestFailed(out: Option<Caller>, requestId: int, ex: LocalException)
      returns (thrown: Option<LocalException>)
      requires Valid()
      modifies this
      ensures Valid() && (Snap(), thrown) == RequestFailedSpec(old(Snap()), cfg, out, requestId, ex)
    {
      RequestFailedPreservesInv(Snap(), cfg, out, requestId, ex);
      SetStateEx(Closed, ex);
      if out.Some? {
        if requestId in requests {
          requests := requests - {requestId};
          return exception;
        }
        return None;
      }
      return exception;
    }

    /** The first locked section of `sendAsyncRequest`. */
    method BeginAsyncRequest(os: seq<byte>, out: Caller, now: int)
      returns (r: Result<(seq<byte>, int), LocalException>)
      requires Valid() && state != NotValidated && |os| >= HeaderSize + 4 && !cfg.datagram
      modifies this
      ensures Valid() && (Snap(), r) == BeginAsyncRequestSpec(old(Snap()), cfg, os, out, now)
    {
      BeginAsyncRequestPreservesInv(Snap(), cfg, os, out, now);
      if exception.Some? {
        return Failure(exception.value);
      }
      var frame := Stream.Patch(os, 10, Stream.IntBytes(|os|));
      var requestId := NewRequestId();
      frame := Stream.Patch(frame, HeaderSize, Stream.IntBytes(requestId));
      asyncRequests := asyncRequests[requestId := out];
      NoteActivity(now);
      return Success((frame, requestId));
    }

    /** The handler of a failed `sendAsyncRequest` write. */
    method AsyncRequestFailed(requestId: int, ex: LocalException) returns (thrown: Option<LocalException>)
      requires Valid()
      modifies this
      ensures Valid() && (Snap(), thrown) == AsyncRequestFailedSpec(old(Snap()), cfg, requestId, ex)
    {
      AsyncRequestFailedPreservesInv(Snap(), cfg, requestId, ex);
      SetStateEx(Closed, ex);
      if requestId in asyncRequests {
        asyncRequests := asyncRequests - {requestId};
        return exception;
      }
      return None;
    }

    /** `prepareBatchRequest`, once its wait is over. */
    method PrepareBatchRequest(os: seq<byte>) returns (r: Result<seq<byte>, LocalException>)
      requires Valid() && state != NotValidated && BatchShaped(os)
      requires !(batchStreamInUse && exception.None?)
      modifies this
      ensures Valid() && (Snap(), r) == PrepareBatchSpec(old(Snap()), os)
    {
      PrepareBatchPreservesInv(Snap(), cfg, os);
      if exception.Some? {
        return Failure(exception.value);
      }
      if |batchStream| == 0 {
        batchStream := RequestBatchHeader();
      }
      batchStreamInUse := true;
      r := Success(batchStream);
      batchStream := os;
    }

    method FinishBatchRequest(os: seq<byte>) returns (r: Result<seq<byte>, LocalException>)
      requires Valid() && state != NotValidated && BatchShaped(os)
      requires exception.None? ==> batchStreamInUse
      modifies this
      ensures Valid() && (Snap(), r) == FinishBatchSpec(old(Snap()), os)
    {
      FinishBatchPreservesInv(Snap(), cfg, os);
      if exception.Some? {
        return Failure(exception.value);
      }
      r := Success(batchStream);
      batchStream := os;
      batchRequestNum := batchRequestNum + 1;
      batchStreamInUse := false;
    }

    /** The first locked section of `flushBatchRequests`, once its wait is
      * over: the frame to write, or None when there is nothing to flush. */
    method BeginFlush(now: int) returns (r: Result<Option<seq<byte>>, LocalException>)
      requires Valid() && state != NotValidated
      requires !(batchStreamInUse && exception.None?)
      modifies this
      ensures Valid() && (Snap(), r) == BeginFlushSpec(old(Snap()), cfg, now)
    {
      ghost var s0 := Snap();
      BeginFlushPreservesInv(s0, cfg, now);
      if exception.Some? {
        return Failure(exception.value);
      }
      if |batchStream| == 0 {
        return Success(None);
      }
      ghost var frame := BatchFrame(batchStream, batchRequestNum);
      batchStream := Stream.Patch(batchStream, 10, Stream.IntBytes(|batchStream|));
      batchStream := Stream.Patch(batchStream, HeaderSize, Stream.IntBytes(batchRequestNum));
      assert batchStream == frame;
      batchStreamInUse := true;
      assert Snap() == s0.(batchStream := frame, batchStreamInUse := true);
      NoteActivity(now);
      return Success(Some(batchStream));
    }

    method FlushDone()
      requires Valid()
      modifies this
      ensures Valid() && Snap() == FlushDoneSpec(old(Snap()))
    {
      FlushDonePreservesInv(Snap(), cfg);
      batchStream := [];
      batchRequestNum := 0;
      batchStreamInUse := false;
    }

    method FlushFailed(ex: LocalException) returns (thrown: Option<LocalException>)
      requires Valid()
      modifies this
      ensures Valid() && (Snap(), thrown) == FlushFailedSpec(old(Snap()), cfg, ex)
    {
      FlushFailedPreservesInv(Snap(), cfg, ex);
      SetStateEx(Closed, ex);
      return exception;
    }

    /** The part `sendResponse` and `sendNoResponse` share. */
    method EndDispatchStep() returns (shutdownFailed: bool)
      modifies this
      ensures (Snap(), shutdownFailed) == EndDispatch(old(Snap()), cfg)
    {
      dispatchCount := dispatchCount - 1;
      shutdownFailed := false;
      if state == Closing && dispatchCount == 0 {
        var failure := InitiateShutdown();
        if failure.Some? {
          SetStateEx(Closed, failure.value);
          shutdownFailed := true;
        }
      }
    }

    method SendResponse(os: seq<byte>, now: int)
      requires Valid() && state != NotValidated && dispatchCount > 0 && |os| >= HeaderSize
      modifies this
      ensures Valid() && Snap() == SendResponseSpec(old(Snap()), cfg, os, now)
    {
      SendResponsePreservesInv(Snap(), cfg, os, now);
      var failure := Transmit(Stream.Patch(os, 10, Stream.IntBytes(|os|)));
      if failure.Some? {
        SetStateEx(Closed, failure.value);
      }
      var shutdownFailed := EndDispatchStep();
      if !shutdownFailed {
        NoteActivity(now);
      }
    }

    method SendNoResponse()
      requires Valid() && state != NotValidated && dispatchCount > 0
      modifies this
      ensures Valid() && Snap() == SendNoResponseSpec(old(Snap()), cfg)
    {
      SendNoResponsePreservesInv(Snap(), cfg);
      var _ := EndDispatchStep();
    }

    /** The switch on the message type in `message`, before its effects. */
    method ClassifyMessage(msg: seq<byte>) returns (inbound: Inbound)
      requires |msg| >= HeaderSize
      ensures inbound == Classify(Snap(), cfg, msg)
    {
      if state == Closed {
        return Ignored;
      }
      var messageType := msg[8];
      var compress := msg[9];
      if compress == 2 {
        inbound := CloseWith(CompressionNotSupported);
      } else if messageType == CloseConnectionMsg {
        inbound := if cfg.datagram && cfg.warn then Ignored else CloseWith(CloseConnection);
      } else if messageType == RequestMsg {
        if state == Closing {
          inbound := Ignored;
        } else {
          var requestId := ReadInt(msg, HeaderSize);
          if requestId.None? {
            inbound := CloseWith(UnmarshalOutOfBounds);
          } else {
            inbound := Dispatch(requestId.value, 1);
          }
        }
      } else if messageType == RequestBatchMsg {
        if state == Closing {
          inbound := Ignored;
        } else {
          var invokeNum := ReadInt(msg, HeaderSize);
          if invokeNum.None? {
            inbound := CloseWith(UnmarshalOutOfBounds);
          } else if invokeNum.value < 0 {
            inbound := CloseWith(NegativeSize);
          } else {
            inbound := Dispatch(0, invokeNum.value);
          }
        }
      } else if messageType == ReplyMsg {
        var requestId := ReadInt(msg, HeaderSize);
        if requestId.None? {
          inbound := CloseWith(UnmarshalOutOfBounds);
        } else if requestId.value in requests {
          inbound := Reply(requestId.value, requests[requestId.value], false);
        } else if requestId.value in asyncRequests {
          inbound := Reply(requestId.value, asyncRequests[requestId.value], true);
        } else {
          inbound := CloseWith(UnknownRequestId);
        }
      } else if messageType == ValidateConnectionMsg {
        inbound := Ignored;
      } else {
        inbound := CloseWith(UnknownMessage);
      }
    }

    /** The locked section of `message`; the result is what the thread outside
      * the lock goes on with (a reply to hand over, or invocations to run). */
    method Message(msg: seq<byte>, now: int) returns (inbound: Inbound)
      requires Valid() && state != NotValidated && |msg| >= HeaderSize
      modifies this
      ensures Valid()
      ensures inbound == Classify(old(Snap()), cfg, msg)
      ensures Snap() == MessageSpec(old(Snap()), cfg, msg, now)
    {
      MessagePreservesInv(Snap(), cfg, msg, now);
      inbound := ClassifyMessage(msg);
      if state == Closed {
        return;
      }
      NoteActivity(now);
      ApplyInbound(inbound);
    }

    /** The effects of the switch in `message`. */
    method ApplyInbound(inbound: Inbound)
      modifies this
      ensures Snap() == Apply(old(Snap()), cfg, inbound)
    {
      match inbound {
        case Ignored =>
        case Dispatch(_, invokeNum) =>
          dispatchCount := dispatchCount + invokeNum;
        case Reply(requestId, _, async) =>
          if async {
            asyncRequests := asyncRequests - {requestId};
          } else {
            requests := requests - {requestId};
          }
        case CloseWith(ex) =>
          SetStateEx(Closed, ex);
      }
    }

    /** The handler of `message` when an invocation raises, with the
      * `remaining` invocations that will send no response. */
    method DispatchFailed(ex: LocalException, remaining: int)
      requires Valid() && 0 < remaining <= dispatchCount
      modifies this
      ensures Valid() && Snap() == DispatchFailedSpec(old(Snap()), cfg, ex, remaining)
    {
      DispatchFailedPreservesInv(Snap(), cfg, ex, remaining);
      SetStateEx(Closed, ex);
      dispatchCount := dispatchCount - remaining;
    }

    method Finished(closeFailure: Option<LocalException>) returns (d: Drained)
      requires Valid() && (state == Closed ==> transceiverOpen)
      modifies this
      ensures Valid() && (Snap(), d) == FinishedSpec(old(Snap()), closeFailure)
    {
      FinishedPreservesInv(Snap(), cfg, closeFailure);
      var thrown: Option<LocalException> := None;
      if state == Closed {
        transceiverOpen := false;
        thrown := closeFailure;
      }
      var drainedRequests: map<int, Caller> := map[];
      var drainedAsync: map<int, Caller> := map[];
      if state == Closed || state == Closing {
        drainedRequests := requests;
        requests := map[];
        drainedAsync := asyncRequests;
        asyncRequests := map[];
      }
      d := Drained(drainedRequests, drainedAsync, exception, thrown);
    }

    /** `exception(ex)`: the thread pool reports a failure. */
    method Exception(ex: LocalException)
      requires Valid()
      modifies this
      ensures Valid() && Snap() == SetStateExSpec(old(Snap()), cfg, Closed, ex)
    {
      SetStateExPreservesInv(Snap(), cfg, Closed, ex);
      SetStateEx(Closed, ex);
    }
  }
}
