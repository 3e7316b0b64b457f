/** The handshake state kept by the DTLS transport around mbedTLS. */
module DtlsTransport {
  datatype DtlsState = DtlsNone | DtlsNew | DtlsHandshaking | DtlsReady

  datatype DtlsStatus =
    | Success
    | HandshakeComplete
    | HandshakeAlreadyComplete
    | HandshakeFailed
    | ConnectionClosed
    | ProcessFailure
    | InvalidParameter
    | InitFailure

  /** What one call of `mbedtls_ssl_read` answers. */
  datatype ReadAnswer = WantRead | Timeout | WantWrite | PeerCloseNotify | ReadError | ReadBytes(n: nat)

  /** What one call of `mbedtls_ssl_handshake` answers. */
  datatype HandshakeAnswer = HandshakeWantRead | HandshakeError | HandshakeDone

  /** How an initialisation goes: refused at once for want of a certificate, a key or a context, failed in the
      mbedTLS set-up calls, or done. */
  datatype InitAnswer = InitRefused | SetUpFailed | SetUpDone

  class Context {
    var state: DtlsState

    constructor ()
      ensures state == DtlsNone
    {
      state := DtlsNone;
    }

    /** A refused call leaves the context as it is. */
    method Init(answer: InitAnswer) returns (status: DtlsStatus)
      modifies this
      ensures state == match answer
                case InitRefused => old(state)
                case SetUpFailed => DtlsNew
                case SetUpDone => DtlsHandshaking
      ensures status == match answer
                case InitRefused => InvalidParameter
                case SetUpFailed => InitFailure
                case SetUpDone => Success
    {
      status := if answer == InitRefused then InvalidParameter else Success;
      if status == Success {
        state := DtlsNew;
        status := if answer == SetUpFailed then InitFailure else Success;
      }
      if status == Success {
        state := DtlsHandshaking;
      }
    }

    /** `answers` are the reads' results in order (an exhausted list means the packet has been
        consumed); `over` tells whether the SSL context has left its handshake. */
    method ProcessPacket(answers: seq<ReadAnswer>, over: bool) returns (status: DtlsStatus)
      modifies this
      ensures status == HandshakeComplete <==>
                old(state) == DtlsHandshaking && over && ReadStatus(answers) == Success
      ensures status != HandshakeComplete ==> status == ReadStatus(answers)
      ensures state == (if status == HandshakeComplete then DtlsReady else old(state))
    {
      status := Success;
      var again := true;
      var i := 0;
      while again && i < |answers|
        invariant 0 <= i <= |answers|
        invariant again ==> status == Success && ReadStatus(answers) == ReadStatus(answers[i..])
        invariant !again ==> status == ReadStatus(answers)
        invariant status in {Success, ConnectionClosed, ProcessFailure}
        invariant state == old(state)
      {
        assert answers[i..][1..] == answers[i + 1..];
        match answers[i] {
          case WantRead =>
          case Timeout => again := false;
          case WantWrite => again := false;
          case PeerCloseNotify => status, again := ConnectionClosed, false;
          case ReadError => status, again := ProcessFailure, false;
          case ReadBytes(_) => again := false;
        }
        i := i + 1;
      }
      if status == Success && state == DtlsHandshaking && over {
        state := DtlsReady;
        status := HandshakeComplete;
      }
    }

    /** `answer` is mbedTLS's first answer that does not ask for another write. */
    method ExecuteHandshake(answer: HandshakeAnswer) returns (status: DtlsStatus)
      modifies this
      ensures status == (if old(state) == DtlsReady then HandshakeAlreadyComplete
                         else match answer
                           case HandshakeWantRead => Success
                           case HandshakeError => HandshakeFailed
                           case HandshakeDone => HandshakeComplete)
      ensures state == (if status == HandshakeComplete then DtlsReady else old(state))
    {
      if state == DtlsReady {
        return HandshakeAlreadyComplete;
      }
      match answer {
        case HandshakeWantRead => status := Success;
        case HandshakeError => status := HandshakeFailed;
        case HandshakeDone =>
          state := DtlsReady;
          status := HandshakeComplete;
        }
    }
  }

  /** The outcome of reading one packet: the first answer that is not "want read" decides. */
  function ReadStatus(answers: seq<ReadAnswer>): (status: DtlsStatus)
    ensures status in {Success, ConnectionClosed, ProcessFailure}
  {
    if answers == [] then Success
    else match answers[0]
      case WantRead => ReadStatus(answers[1..])
      case PeerCloseNotify => ConnectionClosed
      case ReadError => ProcessFailure
      case _ => Success
  }

  /** The first answer that does not ask for more decides: a close notice ends the connection, an error fails, and
      anything else, or no answer at all, is well. */
  lemma {:induction false} FirstDecides(answers: seq<ReadAnswer>, i: nat)
    requires i <= |answers| && forall k :: 0 <= k < i ==> answers[k] == WantRead
    requires i < |answers| ==> answers[i] != WantRead
    ensures ReadStatus(answers) == ConnectionClosed <==> i < |answers| && answers[i] == PeerCloseNotify
    ensures ReadStatus(answers) == ProcessFailure <==> i < |answers| && answers[i] == ReadError
    decreases |answers|
  {
    if i > 0 {
      FirstDecides(answers[1..], i - 1);
    }
  }

  /** A call made on the context by the peer connection. */
  datatype Call =
    | CallInit(answer: InitAnswer)
    | CallProcess(answers: seq<ReadAnswer>, over: bool)
    | CallExecute(handshake: HandshakeAnswer)

  /** An initialisation that was not refused. */
  predicate Restarts(call: Call) {
    call.CallInit? && call.answer != InitRefused
  }

  /** Any sequence of calls: completion is reported at most once between two initialisations that were not
      refused, and the context is READY exactly when it has been reported since the last one. */
  method Run(calls: seq<Call>) returns (statuses: seq<DtlsStatus>, ready: bool)
    ensures |statuses| == |calls|
    ensures forall i, j :: 0 <= i < j < |calls|
              && statuses[i] == HandshakeComplete && statuses[j] == HandshakeComplete
              ==> exists k :: i < k < j && Restarts(calls[k])
    ensures ready <==> exists i :: 0 <= i < |calls| && statuses[i] == HandshakeComplete
                         && forall k :: i < k < |calls| ==> !Restarts(calls[k])
  {
    var context := new Context();
    statuses, ready := [], false;
    for n := 0 to |calls|
      invariant fresh(context)
      invariant |statuses| == n
      invariant ready <==> context.state == DtlsReady
      invariant ready <==> Completing(calls[..n], statuses)
      invariant OncePerInit(calls[..n], statuses)
      invariant forall i :: 0 <= i < n && calls[i].CallInit? ==> statuses[i] != HandshakeComplete
    {
      var status;
      match calls[n] {
        case CallInit(r) => status := context.Init(r);
        case CallProcess(answers, over) => status := context.ProcessPacket(answers, over);
        case CallExecute(answer) => status := context.ExecuteHandshake(answer);
      }
      NextCall(calls[..n], statuses, calls[n], status);
      assert calls[..n] + [calls[n]] == calls[..n + 1];
      statuses := statuses + [status];
      ready := context.state == DtlsReady;
    }
    assert calls[..|calls|] == calls;
  }

  ghost predicate Completing(calls: seq<Call>, statuses: seq<DtlsStatus>)
    requires |calls| == |statuses|
  {
    exists i :: 0 <= i < |calls| && statuses[i] == HandshakeComplete
      && forall k :: i < k < |calls| ==> !Restarts(calls[k])
  }

  ghost predicate OncePerInit(calls: seq<Call>, statuses: seq<DtlsStatus>)
    requires |calls| == |statuses|
  {
    forall i, j :: 0 <= i < j < |calls|
      && statuses[i] == HandshakeComplete && statuses[j] == HandshakeComplete
      ==> exists k :: i < k < j && Restarts(calls[k])
  }

  /** How one more call changes both run predicates. */
  lemma NextCall(calls: seq<Call>, statuses: seq<DtlsStatus>, call: Call, status: DtlsStatus)
    requires |calls| == |statuses|
    requires OncePerInit(calls, statuses)
    requires status == HandshakeComplete ==> !Restarts(call) && !Completing(calls, statuses)
    ensures OncePerInit(calls + [call], statuses + [status])
    ensures Completing(calls + [call], statuses + [status])
       <==> status == HandshakeComplete || (!Restarts(call) && Completing(calls, statuses))
  {
    var cs, ss := calls + [call], statuses + [status];
    var n := |calls|;
    forall i, j | 0 <= i < j < |cs| && ss[i] == HandshakeComplete && ss[j] == HandshakeComplete
      ensures exists k :: i < k < j && Restarts(cs[k])
    {
      if j == n {
        assert ss[i] == statuses[i];
        assert exists k :: i < k < n && Restarts(calls[k]);
        var k :| i < k < n && Restarts(calls[k]);
        assert cs[k] == calls[k];
      } else {
        var k :| i < k < j && Restarts(calls[k]);
        assert cs[k] == calls[k];
      }
    }
    if status == HandshakeComplete {
      assert ss[n] == HandshakeComplete;
    } else if Completing(cs, ss) {
      var i :| 0 <= i < |cs| && ss[i] == HandshakeComplete
        && forall k :: i < k < |cs| ==> !Restarts(cs[k]);
      assert !Restarts(cs[n]) && statuses[i] == HandshakeComplete;
      assert forall k :: i < k < n ==> cs[k] == calls[k];
    } else if Completing(calls, statuses) {
      var i :| 0 <= i < n && statuses[i] == HandshakeComplete
        && forall k :: i < k < n ==> !Restarts(calls[k]);
      assert ss[i] == HandshakeComplete;
    }
  }
}
