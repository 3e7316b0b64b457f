/** What the foreign calls answer while a handler runs. */
module Answers {
  import opened Basics
  import opened IceTypes
  import DtlsTransport

  /** `sendto`, or the TLS send, on one packet: `Broken` closes the socket. */
  datatype SendAnswer = Taken | Broken | Refused

  /** One attempt to gather a candidate: the descriptor of `socket` (negative when it failed), whether the
      bind succeeded or the TLS connection is already up, and whether the ICE library takes the candidate. */
  datatype Gathering = Gathering(kind: CandidateType, tls: bool, fd: int, up: bool, added: bool)

  datatype TlsAnswer = TlsDone(added: bool) | TlsWaiting | TlsFailed

  /** What one pass does for a context: its handshake's progress, or its next request. */
  datatype SlotAnswer = SlotAnswer(tls: TlsAnswer, request: Option<SendAnswer>)

  /** The checks after a handshake: certificate, keys, SRTP and SCTP sessions. */
  datatype Completion = Completion(sends: seq<SendAnswer>, inOrder: bool)

  /** One call of the handshake, what is sent meanwhile, and the clock afterwards. */
  datatype HandshakeCall = HandshakeCall(
    sends: seq<SendAnswer>, answer: DtlsTransport.HandshakeAnswer, completion: Completion, timedOut: bool)

  /** One DTLS record, what is sent meanwhile and, if the session ends, while it is disconnected. */
  datatype DtlsRecord = DtlsRecord(
    sends: seq<SendAnswer>, answers: seq<DtlsTransport.ReadAnswer>, over: bool, completion: Completion,
    closing: seq<SendAnswer>)

  datatype StunAnswer = StunAnswer(action: StunAction, succeeded: bool, first: SendAnswer, second: SendAnswer)

  /** One read from a socket. `pairFound`: the packet belongs to a known candidate pair. */
  datatype Packet =
    | ReadError
    | MediaPacket(pairFound: bool, handshake: HandshakeCall, resends: seq<SendAnswer>)
    | DtlsPacket(pairFound: bool, handshake: HandshakeCall, record: DtlsRecord)
    | StunPacket(stun: StunAnswer, pairFound: bool, handshake: HandshakeCall)
    | UnknownPacket

  /** What polling one socket finds. */
  datatype Poll = Silent | Readable(tls: TlsAnswer, packets: seq<Packet>)

  /** One connectivity round. */
  datatype Round = Round(
    gathered: seq<Gathering>, sends: seq<(nat, SendAnswer)>, slots: seq<SlotAnswer>, timedOut: bool)

  /** All that the session thread may ask for while it serves one request. */
  datatype Service = Service(
    round: Round, binding: Option<SendAnswer>, slots: seq<SlotAnswer>, handshake: HandshakeCall,
    report: seq<SendAnswer>, inactive: bool)

  /** The stages of setting a remote description, and the number of candidates that it lists. */
  datatype Description = Description(
    parsed: bool, dtls: DtlsTransport.InitAnswer, iceStarted: bool, rtpReady: bool, signalled: bool, listed: nat)
  {
    /** The controller is started. */
    predicate Starts() {
      parsed && dtls == DtlsTransport.SetUpDone && iceStarted
    }
  }
}
