/** States, requests and events shared by the ICE controller and the peer connection session. */
module IceTypes {
  import opened Basics

  const MAX_SOCKETS: nat := 100
  const MAX_QUEUED: nat := 10
  const CONNECTIVITY_MS: nat := 100
  const PERIODIC_MS: nat := 1000
  const CLOSING_MS: nat := 100

  datatype IceState = IceNone | IceNew | IceProcess | IceReady | IceClosing | IceClosed

  datatype SocketState = Unused | InProgress | Created | Gathered | Selected

  datatype CandidateType = Host | PeerReflexive | ServerReflexive | Relay

  /** One slot of the socket table; `local` and `hasPair` are the slot's candidate pointers, `fd` is
      -1 when no socket is open, `tls` is the socket's type. */
  datatype Socket = Socket(state: SocketState, fd: int, local: Option<CandidateType>, hasPair: bool, tls: bool)

  const FREE_SLOT := Socket(Unused, -1, None, false, false)

  datatype SessionState =
    Inited | Start | FindConnection | P2PFound | ConnectionReady | SessionClosing

  datatype Track = Video | Audio

  datatype Request =
    | AddRemoteCandidate
    | ProcessIce
    | PeriodCheck
    | RtcpReport
    | RequestIceClosing
    | RequestIceClosed
    | CloseConnection
    | CloseNoIceFlow

  /** What a session's log records. */
  datatype Event =
    | SessionStarted
    | TransceiversCleared
    | IceStarted
    | ConnectionFound
    | HandshakeCompleted
    // A ready session left its state, or was told READY again, without a CLOSED notice
    | Departed
    | PeerReady(track: Track)
    | PeerClosed(track: Track)

  /** What Ice_HandleStunPacket asks the controller to do. */
  datatype StunAction =
    | AddressUpdated
    | SendResponse
    | SendRequest
    | ResponseAndNominate
    | Nominate
    | PairReady
    | SessionTerminated
    | NotStun
    | NothingToDo

  datatype NetResult = Ok | FoundConnection | ConnectionClosed | AlreadyClosed | SendtoFailed | Failed

  /** The socket table at a handler boundary: slots past the count are closed, a slot is closed
      exactly when it is unused, every open slot past its TLS handshake has a local candidate, and
      `open` maps exactly the descriptors held to the slots that hold them. */
  ghost predicate TableValid(sockets: seq<Socket>, count: nat, open: map<int, nat>) {
    && |sockets| == MAX_SOCKETS
    && count <= MAX_SOCKETS
    && (forall i :: 0 <= i < MAX_SOCKETS ==> SlotValid(sockets[i], i, count, open))
    && (forall fd :: fd in open ==> fd >= 0 && open[fd] < MAX_SOCKETS && sockets[open[fd]].fd == fd)
  }

  ghost predicate SlotValid(slot: Socket, i: nat, count: nat, open: map<int, nat>) {
    && (slot.fd == -1 <==> slot.state == Unused)
    && (slot.fd != -1 ==> i < count && slot.fd in open && open[slot.fd] == i)
    && (slot.state in {Created, Gathered, Selected} ==> slot.local.Some?)
  }

  /** The nominated context is in the table and carries a candidate and a pair. */
  ghost predicate NominationValid(sockets: seq<Socket>, count: nat, nominated: Option<nat>) {
    nominated.Some? ==>
      && nominated.value < count <= |sockets|
      && sockets[nominated.value].local.Some?
      && sockets[nominated.value].hasPair
  }

  /** An open relay context keeps the controller in CLOSING: its TURN session must end first. */
  predicate Lingers(s: Socket) {
    s.state != Unused && s.local == Some(Relay)
  }

  ghost predicate AnyLingers(sockets: seq<Socket>) {
    exists k :: 0 <= k < |sockets| && Lingers(sockets[k])
  }

  /** What closing the controller leaves in a slot. */
  function Released(s: Socket): Socket {
    if s.state == Unused || Lingers(s) then s else s.(state := Unused, fd := -1)
  }

  /** No slot is opened: none starts a TLS handshake and a closed one stays closed. */
  ghost predicate NoneOpened(before: seq<Socket>, after: seq<Socket>) {
    && |before| == |after|
    && forall i {:trigger after[i]} :: 0 <= i < |before| ==>
         && (after[i].state == InProgress ==> before[i].state == InProgress)
         && (before[i].state == Unused ==> after[i].state == Unused)
  }

  /** A queued request whose handler re-arms the timer or closes the controller. */
  predicate Rearming(r: Request, isNominated: bool) {
    r == ProcessIce || r == RequestIceClosing || (r == PeriodCheck && isNominated)
  }

  /** The heartbeat: the one-shot timer is armed, or a request that re-arms it is queued. */
  ghost predicate Beating(armed: bool, queue: seq<Request>, isNominated: bool) {
    armed || exists i :: 0 <= i < |queue| && Rearming(queue[i], isNominated)
  }

  /** States in which the controller must be woken again. */
  predicate Active(state: IceState) {
    state in {IceProcess, IceReady, IceClosing}
  }

  /** `owed`: the controller closed and the session has not yet been told. */
  ghost predicate HeartbeatValid(
    state: IceState, armed: bool, queue: seq<Request>, isNominated: bool, owed: bool)
  {
    && (Active(state) ==> Beating(armed, queue, isNominated))
    && (owed ==> Beating(armed, queue, isNominated) || RequestIceClosed in queue)
  }

  /** More requests, an armed timer or a nomination never stop the heartbeat. */
  lemma BeatingGrows(
    armed: bool, queue: seq<Request>, isNominated: bool,
    armed': bool, queue': seq<Request>, isNominated': bool)
    requires Beating(armed, queue, isNominated)
    requires armed ==> armed'
    requires isNominated ==> isNominated'
    requires queue <= queue'
    ensures Beating(armed', queue', isNominated')
  {
  }

  lemma HeartbeatGrows(
    state: IceState, armed: bool, queue: seq<Request>, isNominated: bool, owed: bool,
    armed': bool, queue': seq<Request>)
    requires HeartbeatValid(state, armed, queue, isNominated, owed)
    requires armed ==> armed'
    requires queue <= queue'
    ensures HeartbeatValid(state, armed', queue', isNominated, owed)
  {
  }

  /** A request that re-arms nothing can be taken without stopping the heartbeat; a CLOSED request
      settles what the session was owed. */
  lemma HeartbeatAfterTake(state: IceState, armed: bool, queue: seq<Request>, isNominated: bool, owed: bool)
    requires HeartbeatValid(state, armed, queue, isNominated, owed)
    requires queue != [] && !Rearming(queue[0], isNominated)
    ensures HeartbeatValid(state, armed, queue[1..], isNominated, owed && queue[0] != RequestIceClosed)
  {
  }

  /** The ICE controller context embedded in a session. `open` is the operating system's view: the
      descriptors held, each with the slot it was opened for. */
  datatype IceController = IceController(
    state: IceState,
    timerArmed: bool,
    timerIntervalMs: nat,
    sockets: seq<Socket>,
    count: nat,
    nominated: Option<nat>,
    polling: bool,
    addLocalCandidates: bool,
    open: map<int, nat>)
  {
    /** Holds between any two statements that touch the table. */
    ghost predicate Table() {
      TableValid(sockets, count, open) && NominationValid(sockets, count, nominated)
    }

    /** Holds between any two handlers. */
    ghost predicate Valid() {
      Table() && (state == IceReady ==> nominated.Some?)
    }

    predicate IsNominated() {
      nominated.Some?
    }

    /** The nominated context is selected, so packets to the peer go out through it. */
    predicate Sendable() {
      nominated.Some? && nominated.value < |sockets| && sockets[nominated.value].state == Selected
    }

    /** Some counted context is in use. */
    ghost predicate AnySocketAlive() {
      exists i :: 0 <= i < count <= |sockets| && sockets[i].state != Unused
    }

    /** `this` is `before` after sends and steps of TLS handshakes. */
    ghost predicate ServedFrom(before: IceController) {
      && this == before.(sockets := sockets, open := open, timerArmed := timerArmed, timerIntervalMs := timerIntervalMs)
      && NoneOpened(before.sockets, sockets)
      && (before.timerArmed ==> timerArmed)
      && open.Keys <= before.open.Keys
    }

    /** `this` is `before` after a handler that neither restarts the controller nor adds contexts. */
    ghost predicate RanFrom(before: IceController) {
      && count == before.count
      && addLocalCandidates == before.addLocalCandidates
      && NoneOpened(before.sockets, sockets)
      && (before.nominated.Some? ==> nominated.Some?)
      && open.Keys <= before.open.Keys
      && ClosedCleanly(before)
    }

    /** CLOSED is entered only with every descriptor released. */
    ghost predicate ClosedCleanly(before: IceController) {
      before.state != IceClosed && state == IceClosed ==> open == map[]
    }
  }

  lemma RanOn(a: IceController, b: IceController, c: IceController)
    requires b.RanFrom(a) && c.RanFrom(b)
    ensures c.RanFrom(a)
  {
    if a.state != IceClosed && c.state == IceClosed && b.state == IceClosed {
      assert c.open.Keys == {};
    }
  }
}
