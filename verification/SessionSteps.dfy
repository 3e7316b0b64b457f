/** What every handler of a session leads to, on what can be seen of the session before and after it. */
module SessionSteps {
  import opened Basics
  import opened IceTypes
  import opened Answers
  import opened IceTable

  /** The handlers that run atomically against one session. */
  datatype Step =
    | TimerFires
    | SessionRequest(service: Service)
    | ListenerPass(polls: seq<Poll>)
    | Signalled
    | RemoteDescription(description: Description)
    | RemoteCandidate
    | RtcpTimer
    | SendFrame(answer: SendAnswer)
    | CloseSessionTimer

  /** What an observer sees of a session between two handlers. */
  datatype Snapshot = Snapshot(
    sessionState: SessionState,
    transceivers: seq<Track>,
    ice: IceController,
    queue: seq<Request>,
    drained: bool,
    owed: bool,
    fault: bool)

  /** A session as it is created. */
  const FIRST_VIEW := Snapshot(
    Inited, [],
    IceController(IceNew, false, 0, seq(MAX_SOCKETS, _ => FREE_SLOT), 0, None, false, false, map[]),
    [], false, false, false)

  /** The invariant of every run. */
  ghost predicate Safe(s: Snapshot) {
    && s.ice.Valid()
    && |s.queue| <= MAX_QUEUED
    && (!s.drained ==> HeartbeatValid(s.ice.state, s.ice.timerArmed, s.queue, s.ice.IsNominated(), s.owed))
    && (s.owed ==> s.ice.state == IceClosed)
  }

  const BOTH_TRACKS: seq<Track> := [Video, Audio]

  /** A request that a queue takes if it has room. */
  function Queued(queue: seq<Request>, r: Request): seq<Request> {
    if |queue| < MAX_QUEUED then queue + [r] else queue
  }

  /** The states out of which the controller can be destroyed. */
  predicate Destroyable(state: IceState) {
    state in {IceNew, IceProcess, IceReady, IceClosing}
  }

  predicate SameSockets(c: IceController, d: IceController) {
    c.sockets == d.sockets && c.count == d.count && c.open == d.open
  }

  /** A started controller: an empty table, no nomination, ready to gather. */
  ghost predicate Started(c: IceController) {
    && c.state == IceProcess && c.nominated.None? && c.count == 0 && c.open == map[]
    && c.polling && c.addLocalCandidates && !AnyLingers(c.sockets)
  }

  /** An expiry queued request `r` or, the queue being full, armed the timer with `ms`. */
  predicate Woken(c: IceController, q: seq<Request>, c': IceController, q': seq<Request>, r: Request, ms: nat) {
    if |q| < MAX_QUEUED then q' == q + [r] && c' == c
    else q' == q && c' == c.(timerArmed := true, timerIntervalMs := ms)
  }

  /** An expiry of the one-shot timer, by the state of the controller. */
  predicate Expired(c: IceController, q: seq<Request>, c': IceController, q': seq<Request>) {
    match c.state
    case IceProcess => Woken(c, q, c', q', ProcessIce, 100)
    case IceReady => Woken(c, q, c', q', PeriodCheck, 1000)
    case IceClosing => Woken(c, q, c', q', RequestIceClosing, 100)
    case IceClosed => Woken(c, q, c', q', RequestIceClosed, 100)
    case _ => c' == c && q' == q
  }

  /** The nominated socket of `c` broke: it is closed, the session is asked to close and the timer is armed. */
  predicate Severed(c: IceController, q: seq<Request>, c': IceController, q': seq<Request>)
    requires c.Sendable()
  {
    && c' == Freed(c, c.nominated.value).(timerArmed := true, timerIntervalMs := CLOSING_MS)
    && q' == Queued(q, CloseConnection)
  }

  /** Sends to the peer: the first broken one, if any, severs the connection. */
  predicate SentToPeer(
    c: IceController, q: seq<Request>, c': IceController, q': seq<Request>, answers: seq<SendAnswer>)
  {
    if c.Sendable() && Broken in answers then Severed(c, q, c', q') else c' == c && q' == q
  }

  /** The binding request of a connection check. */
  function Binding(c: IceController, binding: Option<SendAnswer>): seq<(nat, SendAnswer)> {
    if c.nominated.Some? && binding.Some? then [(c.nominated.value, binding.value)] else []
  }

  // ------------------------------------------------------------------ requests

  /** A connectivity round: candidates are gathered once, requests sent and handshakes continued; the timer is armed,
      and the session is asked to close when the round has timed out. */
  ghost predicate RoundServed(before: Snapshot, after: Snapshot, round: Round)
    requires before.queue != [] && |before.ice.sockets| == MAX_SOCKETS
  {
    before.queue[0] == ProcessIce ==>
      var gathered := if before.ice.addLocalCandidates then GatheredAll(before.ice, round.gathered) else before.ice;
      && after.sessionState == before.sessionState && after.transceivers == before.transceivers
      && after.ice.state == before.ice.state && after.ice.polling == before.ice.polling
      && after.ice.nominated == before.ice.nominated && !after.ice.addLocalCandidates
      && after.ice.timerArmed && after.ice.timerIntervalMs == 100
      && after.ice.count == gathered.count && Stepped(gathered.sockets, after.ice.sockets, round.sends, round.slots)
      && (round.timedOut ==> CloseConnection in after.queue || |after.queue| == MAX_QUEUED)
      && (round.sends == [] && round.slots == [] ==>
            && after.queue == (if round.timedOut then Queued(before.queue[1..], CloseConnection) else before.queue[1..])
            && SameSockets(after.ice, gathered))
  }

  /** A check of the nominated pair: its request is sent, handshakes are continued and the timer is armed. */
  ghost predicate CheckServed(before: Snapshot, after: Snapshot, service: Service)
    requires before.queue != []
  {
    before.queue[0] == PeriodCheck && before.ice.nominated.Some? ==>
      && after.sessionState == before.sessionState && after.transceivers == before.transceivers
      && after.ice.state == before.ice.state && after.ice.nominated == before.ice.nominated
      && after.ice.timerArmed && after.ice.timerIntervalMs == 1000
      && Stepped(before.ice.sockets, after.ice.sockets, Binding(before.ice, service.binding), service.slots)
  }

  /** A closing controller waits while a context is alive, and is closed once none is. */
  ghost predicate WaitServed(before: Snapshot, after: Snapshot, service: Service)
    requires before.queue != []
  {
    before.queue[0] == RequestIceClosing ==>
      && after.sessionState == before.sessionState && after.transceivers == before.transceivers
      && if before.ice.AnySocketAlive()
         then && after.ice.state == before.ice.state && after.ice.timerArmed && after.ice.timerIntervalMs == 100
              && Passed(before.ice.sockets, after.ice.sockets, service.slots)
         else && after.ice == before.ice.(state := IceClosed, polling := false) && after.ice.open == map[]
              && after.queue == before.queue[1..] + [RequestIceClosed]
  }

  /** What a request to close and a CLOSED request lead to. */
  ghost predicate ClosingServed(before: Snapshot, after: Snapshot)
    requires before.queue != []
  {
    && (before.queue[0] == CloseConnection ==>
          && after.sessionState == SessionClosing && after.transceivers == before.transceivers
          && (Destroyable(before.ice.state) && !AnyLingers(before.ice.sockets) ==>
                after.ice.state == IceClosed && after.queue == Queued(before.queue[1..], RequestIceClosed)))
    && (before.queue[0] == CloseNoIceFlow ==>
          && after.sessionState == Inited && after.transceivers == []
          && (Destroyable(before.ice.state) && !AnyLingers(before.ice.sockets) ==>
                after.ice.state == IceClosed && after.queue == Queued(before.queue[1..], RequestIceClosed)))
    && (before.queue[0] == RequestIceClosed ==>
          && after.sessionState == Inited && after.transceivers == []
          && after.ice == before.ice && after.queue == before.queue[1..] && !after.owed)
  }

  /** Requests that are only taken off the queue, and a report, which is sent to the peer. */
  ghost predicate OtherServed(before: Snapshot, after: Snapshot, report: seq<SendAnswer>)
    requires before.queue != []
  {
    && (before.queue[0] == AddRemoteCandidate || (before.queue[0] == PeriodCheck && before.ice.nominated.None?) ==>
          after == before.(queue := before.queue[1..]))
    && (before.queue[0] == RtcpReport ==>
          && SentToPeer(before.ice, before.queue[1..], after.ice, after.queue, report)
          && after == before.(ice := after.ice, queue := after.queue))
  }

  ghost predicate Served(before: Snapshot, after: Snapshot, service: Service)
    requires before.queue != [] && |before.ice.sockets| == MAX_SOCKETS
  {
    && RoundServed(before, after, service.round) && CheckServed(before, after, service)
    && WaitServed(before, after, service) && ClosingServed(before, after) && OtherServed(before, after, service.report)
  }

  // ------------------------------------------------------------------ all handlers

  /** What step `step` leads to. Of a request that may run the handshake, and of packets that are not quiet, the
      contracts of `PeerSession.Session` say more, since it depends on the DTLS context. */
  ghost predicate Leads(step: Step, before: Snapshot, after: Snapshot)
    requires |before.ice.sockets| == MAX_SOCKETS
  {
    if before.fault then after == before
    else match step
      case TimerFires =>
        && after == before.(ice := after.ice, queue := after.queue)
        && (!before.ice.timerArmed ==> after == before)
        && (before.ice.timerArmed ==> Expired(before.ice.(timerArmed := false), before.queue, after.ice, after.queue))
      case SessionRequest(service) =>
        && (!service.inactive && before.queue == [] ==> after == before)
        && (!service.inactive && before.queue != [] && !Retries(before) ==>
              Served(before, after, service) && !after.fault)
        && (service.inactive && !(before.queue != [] && before.queue[0] == RequestIceClosed) ==>
              after.fault || after.sessionState != ConnectionReady)
      case ListenerPass(polls) =>
        !before.ice.polling || (forall k :: 0 <= k < |polls| ==> QuietPoll(polls[k])) ==> after == before
      case Signalled =>
        if before.sessionState != Inited then after == before
        else after == before.(
               sessionState := Start, transceivers := BOTH_TRACKS, queue := [], drained := after.drained)
      case RemoteDescription(d) =>
        && after.transceivers == before.transceivers && !after.fault
        && after.sessionState == (if d.Starts() && d.rtpReady then FindConnection else before.sessionState)
        && (if d.Starts() then Started(after.ice) else after.ice == before.ice && after.queue == before.queue)
        && (d.Starts() && d.rtpReady && d.signalled ==>
              after.queue == Listed(Queued(before.queue, ProcessIce), d.listed))
      case RemoteCandidate => after == before.(queue := Queued(before.queue, AddRemoteCandidate))
      case RtcpTimer => after == before.(queue := Queued(before.queue, RtcpReport))
      case SendFrame(answer) =>
        && after == before.(ice := after.ice, queue := after.queue)
        && SentToPeer(before.ice, before.queue, after.ice, after.queue, [answer])
      case CloseSessionTimer =>
        if before.sessionState != Start then after == before
        else after == before.(queue := [CloseNoIceFlow], drained := after.drained)
  }

  ghost predicate Follows(step: Step, before: Snapshot, after: Snapshot) {
    |before.ice.sockets| == MAX_SOCKETS && Leads(step, before, after)
  }

  /** A connection check while a handshake is under way retries the handshake. */
  predicate Retries(s: Snapshot) {
    s.queue != [] && s.queue[0] == PeriodCheck && s.sessionState == P2PFound
  }

  /** A queue after `n` requests to add a remote candidate. */
  function Listed(queue: seq<Request>, n: nat): seq<Request> {
    if n == 0 then queue else Queued(Listed(queue, n - 1), AddRemoteCandidate)
  }

  /** A binding request that is answered, of a pair that has not succeeded. */
  predicate Quiet(packet: Packet) {
    packet.StunPacket? && QuietStun(packet.stun)
  }

  predicate AllQuiet(packets: seq<Packet>) {
    forall k :: 0 <= k < |packets| ==> Quiet(packets[k])
  }

  predicate QuietPoll(poll: Poll) {
    poll.Readable? ==> poll.tls == TlsWaiting && AllQuiet(poll.packets)
  }

  predicate QuietStun(stun: StunAnswer) {
    stun.action == SendResponse && !stun.succeeded && stun.first == Taken
  }
}
