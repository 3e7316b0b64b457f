/** One peer connection session with its ICE controller. Each method is one source function; the
    entry points at the end (`DoStep`) are the handlers that the session thread, the socket listener,
    the timers and the application run. What foreign calls answer comes with the step. */
module PeerSession {
  import opened Basics
  import opened IceTypes
  import opened Answers
  import opened IceTable
  import opened SessionLog
  import opened SessionSteps
  import opened Trace
  import DtlsTransport
  import MediaSource

  /** What a track counts: the ready sessions and the silent departures, less `capped` (READY notices that
      found the count at its maximum), and never fewer than the ready sessions. `others` are the other ready
      sessions, `surplus` is the other sessions' share in the difference. */
  ghost predicate Counts(n: nat, max: nat, others: nat, surplus: int, ready: bool, departures: nat, capped: nat) {
    && others < max
    && others + (if ready then 1 else 0) <= n <= max
    && n == others + (if ready then 1 else 0) + surplus + departures - capped
  }

  /** What one session contributes to the tracks' counts. */
  datatype Share = Share(ready: bool, departures: nat, capped: nat, fault: bool)

  class Session {
    var sessionState: SessionState
    var transceivers: seq<Track>
    var queue: seq<Request>
    var ice: IceController
    // A null transceiver was read; the process is gone
    var fault: bool
    const dtls: DtlsTransport.Context
    const video: MediaSource.Source
    const audio: MediaSource.Source

    // History variables, which no decision depends on.
    // The queue was emptied while no timer was armed, and the controller has not been started since
    var drained: bool
    // The controller was closed out of an active state and the session has not been told yet
    var owed: bool
    var log: seq<Event>
    // How many READY notices found the count at its maximum
    var capped: nat
    // The other sessions' ready count and share
    ghost var others: nat
    ghost var surplus: int

    function View(): Snapshot
      reads this
    {
      Snapshot(sessionState, transceivers, ice, queue, drained, owed, fault)
    }

    predicate Ready()
      reads this
    {
      sessionState == ConnectionReady
    }

    function OwnShare(): Share
      reads this
    {
      Share(Ready(), Departures(log), capped, fault)
    }

    ghost predicate CountedIn(source: MediaSource.Source)
      reads this, source
    {
      Counts(source.numReadyPeer, source.maxPeers, others, surplus, Ready(), Departures(log), capped)
    }

    /** What holds of the session between two handlers, whatever the other sessions do. */
    ghost predicate Sound()
      reads this
    {
      && video != audio && video.maxPeers == audio.maxPeers
      && Safe(View())
      && LogSound(log, ice.IsNominated(), Ready(), transceivers == [], fault)
      && (transceivers == [] || transceivers == BOTH_TRACKS)
      && (sessionState == Inited ==> transceivers == [])
      && (Ready() ==> transceivers != [])
    }

    ghost predicate Valid()
      reads this, video, audio
    {
      Sound() && CountedIn(video) && CountedIn(audio)
    }

    constructor (video: MediaSource.Source, audio: MediaSource.Source, ghost others: nat, ghost surplus: int)
      requires video != audio && video.maxPeers == audio.maxPeers
      requires Counts(video.numReadyPeer, video.maxPeers, others, surplus, false, 0, 0)
      requires Counts(audio.numReadyPeer, audio.maxPeers, others, surplus, false, 0, 0)
      ensures Valid() && New() && fresh(dtls) && View() == FIRST_VIEW
      ensures this.video == video && this.audio == audio && this.others == others && this.surplus == surplus
    {
      sessionState, transceivers, queue, fault := Inited, [], [], false;
      dtls := new DtlsTransport.Context();
      this.video, this.audio := video, audio;
      ice := IceController(IceNew, false, 0, seq(MAX_SOCKETS, _ => FREE_SLOT), 0, None, false, false, map[]);
      drained, owed, log, capped := false, false, [], 0;
      this.others, this.surplus := others, surplus;
    }

    /** A session as it is created. */
    ghost predicate New()
      reads this
    {
      && sessionState == Inited && ice.state == IceNew && ice.open == map[] && ice.count == 0
      && log == [] && queue == [] && !fault && capped == 0
    }

    /** The other sessions' share changes. */
    ghost method SetOthers(others: nat, surplus: int)
      requires Sound()
      requires Counts(video.numReadyPeer, video.maxPeers, others, surplus, Ready(), Departures(log), capped)
      requires Counts(audio.numReadyPeer, audio.maxPeers, others, surplus, Ready(), Departures(log), capped)
      modifies this`others, this`surplus
      ensures Valid() && this.others == others && this.surplus == surplus
    {
      this.others, this.surplus := others, surplus;
    }

    // ------------------------------------------------------------------ queue and timer

    /** Refused exactly when the queue is full. */
    method SendEvent(r: Request) returns (sent: bool)
      requires |queue| <= MAX_QUEUED
      modifies this`queue
      ensures sent <==> |old(queue)| < MAX_QUEUED
      ensures queue == Queued(old(queue), r)
    {
      if |queue| == MAX_QUEUED {
        return false;
      }
      queue := queue + [r];
      return true;
    }

    method UpdateTimerInterval(ms: nat)
      modifies this`ice
      ensures ice == old(ice).(timerArmed := true, timerIntervalMs := ms)
    {
      ice := ice.(timerArmed := true, timerIntervalMs := ms);
    }

    /** The request a timer expiry asks for, by controller state, and the retry interval. */
    static function Wakeup(state: IceState): Option<(Request, nat)> {
      match state
      case IceProcess => Some((ProcessIce, CONNECTIVITY_MS))
      case IceReady => Some((PeriodCheck, PERIODIC_MS))
      case IceClosing => Some((RequestIceClosing, CLOSING_MS))
      case IceClosed => Some((RequestIceClosed, CLOSING_MS))
      case _ => None
    }

    /** One expiry queues the state's request or, when the queue is full, re-arms the timer; either
        way the heartbeat is restored. */
    method OnTimerExpire()
      requires ice.Valid() && |queue| <= MAX_QUEUED
      requires owed ==> ice.state == IceClosed
      modifies this`queue, this`ice
      ensures Safe(View()) && HeartbeatValid(ice.state, ice.timerArmed, queue, ice.IsNominated(), owed)
      ensures Expired(old(ice), old(queue), ice, queue)
    {
      var wakeup := Wakeup(ice.state);
      if wakeup.Some? {
        var (r, ms) := wakeup.value;
        var sent := SendEvent(r);
        if !sent {
          UpdateTimerInterval(ms);
        } else {
          assert queue[|queue| - 1] == r;
          assert Active(ice.state) ==> Rearming(r, ice.IsNominated());
        }
      }
    }

    // ------------------------------------------------------------------ sockets

    /** A TLS context is disconnected first, which closes the descriptor itself; then it is closed again. */
    method FreeSocketContext(i: nat)
      requires i < |ice.sockets|
      modifies this`ice
      ensures ice == Freed(old(ice), i)
    {
      var slot := ice.sockets[i];
      if slot.fd != -1 {
        if slot.tls {
          ice := ice.(open := ice.open - {slot.fd});
        }
        ice := ice.(open := ice.open - {slot.fd});
        ice := ice.(sockets := ice.sockets[i := slot.(state := Unused, fd := -1)]);
      }
    }

    /** Sends through slot `i`. A broken socket is closed; if it was the nominated one, the session is
        asked to close and the timer is re-armed. */
    method SendPacket(i: nat, answer: SendAnswer) returns (r: NetResult)
      requires ice.Table() && |queue| <= MAX_QUEUED && i < ice.count
      requires ice.sockets[i].state != Unused ==> ice.sockets[i].local.Some?
      modifies this`ice, this`queue
      ensures ice.Table() && ice.ServedFrom(old(ice)) && |queue| <= MAX_QUEUED
      ensures r == if old(ice.sockets)[i].state == Unused then AlreadyClosed
                   else match answer case Taken => Ok case Broken => SendtoFailed case Refused => Failed
      ensures r != SendtoFailed ==> ice == old(ice) && queue == old(queue)
      ensures r == SendtoFailed ==>
                if old(ice.nominated) == Some(i)
                then ice == Freed(old(ice), i).(timerArmed := true, timerIntervalMs := CLOSING_MS)
                     && queue == Queued(old(queue), CloseConnection)
                else ice == Freed(old(ice), i) && queue == old(queue)
    {
      if ice.sockets[i].state == Unused {
        return AlreadyClosed;
      }
      match answer {
        case Taken => return Ok;
        case Refused => return Failed;
        case Broken =>
          FreedTable(ice, i);
          FreeSocketContext(i);
          if ice.nominated == Some(i) {
            var _ := SendEvent(CloseConnection);
            UpdateTimerInterval(CLOSING_MS);
          }
          return SendtoFailed;
      }
    }

    /** `SendPacket` between two handlers' steps. */
    method SendBeating(i: nat, answer: SendAnswer) returns (r: NetResult)
      requires Safe(View()) && i < ice.count
      requires ice.sockets[i].state != Unused ==> ice.sockets[i].local.Some?
      modifies this`ice, this`queue
      ensures Safe(View()) && ice.ServedFrom(old(ice)) && old(queue) <= queue
      ensures r == if old(ice.sockets)[i].state == Unused then AlreadyClosed
                   else match answer case Taken => Ok case Broken => SendtoFailed case Refused => Failed
      ensures r != SendtoFailed ==> ice == old(ice) && queue == old(queue)
      ensures r == SendtoFailed ==> ice.sockets == Freed(old(ice), i).sockets && ice.sockets[i].state == Unused
      ensures r == SendtoFailed && old(ice.nominated) == Some(i) ==>
                ice == Freed(old(ice), i).(timerArmed := true, timerIntervalMs := CLOSING_MS)
                && queue == Queued(old(queue), CloseConnection)
    {
      ghost var before, q := ice, queue;
      FreedTable(ice, i);
      assert SlotValid(ice.sockets[i], i, ice.count, ice.open);
      r := SendPacket(i, answer);
      if !drained {
        HeartbeatGrows(ice.state, before.timerArmed, q, ice.IsNominated(), owed, ice.timerArmed, queue);
      }
    }

    /** Requests sent through contexts that have a local candidate: exactly those that break are closed. */
    method SendMany(sends: seq<(nat, SendAnswer)>)
      requires Safe(View())
      modifies this`ice, this`queue
      ensures Safe(View()) && ice.ServedFrom(old(ice)) && old(queue) <= queue
      ensures Sent(old(ice.sockets), ice.sockets, sends)
      ensures sends == [] ==> ice == old(ice) && queue == old(queue)
    {
      ghost var before, q := ice, queue;
      for k := 0 to |sends|
        invariant Safe(View()) && ice.ServedFrom(before) && q <= queue
        invariant Sent(before.sockets, ice.sockets, sends[..k])
        invariant k == 0 ==> ice == before && queue == q
      {
        ghost var sent := ice.sockets;
        SendOne(sends[k].0, sends[k].1);
        SentNext(before.sockets, sent, ice.sockets, sends, k);
      }
      assert sends[..|sends|] == sends;
    }

    method SendOne(i: nat, answer: SendAnswer)
      requires Safe(View())
      modifies this`ice, this`queue
      ensures Safe(View()) && ice.ServedFrom(old(ice)) && old(queue) <= queue
      ensures Sent(old(ice.sockets), ice.sockets, [(i, answer)])
    {
      if i < ice.count && ice.sockets[i].local.Some? {
        var _ := SendBeating(i, answer);
      } else {
        NotSent(ice, i, answer);
      }
    }

    /** Sends through the nominated context, as the DTLS send hook and the media thread do: a packet goes out exactly
        when the context is selected and the socket takes it. A broken socket is closed and the session asked to
        close. */
    method SendToRemotePeer(answer: SendAnswer) returns (sent: bool)
      requires Safe(View())
      modifies this`ice, this`queue
      ensures Safe(View()) && ice.ServedFrom(old(ice)) && old(queue) <= queue
      ensures sent <==> old(ice).Sendable() && answer == Taken
      ensures SentToPeer(old(ice), old(queue), ice, queue, [answer])
    {
      if ice.nominated.None? || ice.sockets[ice.nominated.value].state != Selected {
        return false;
      }
      var r := SendBeating(ice.nominated.value, answer);
      return r == Ok;
    }

    /** What mbedTLS, SCTP and SRTP send while they run: the first broken send, if any, severs the connection. */
    method ForeignSends(answers: seq<SendAnswer>)
      requires Safe(View())
      modifies this`ice, this`queue
      ensures Safe(View()) && ice.ServedFrom(old(ice)) && old(queue) <= queue
      ensures SentToPeer(old(ice), old(queue), ice, queue, answers)
    {
      ghost var before, q := ice, queue;
      for k := 0 to |answers|
        invariant Safe(View()) && ice.ServedFrom(before) && q <= queue
        invariant SentToPeer(before, q, ice, queue, answers[..k])
      {
        SeveredSilent(before);
        var _ := SendToRemotePeer(answers[k]);
        assert answers[..k + 1] == answers[..k] + [answers[k]];
      }
      assert answers[..|answers|] == answers;
    }

    /** Nothing is sent through a severed connection. */
    static lemma SeveredSilent(c: IceController)
      requires c.Table()
      ensures c.Sendable() ==> !Freed(c, c.nominated.value).Sendable()
    {
      if c.Sendable() {
        assert SlotValid(c.sockets[c.nominated.value], c.nominated.value, c.count, c.open);
      }
    }

    /** The operating system's `socket`, for slot `i`: -1, or a descriptor not already held. */
    method OpenSocket(i: nat, answer: int) returns (fd: int)
      modifies this`ice
      ensures fd == if Given(old(ice), answer) then answer else -1
      ensures ice == if fd == -1 then old(ice) else old(ice).(open := old(ice.open)[fd := i])
    {
      fd := -1;
      if answer >= 0 && answer !in ice.open {
        fd := answer;
        ice := ice.(open := ice.open[fd := i]);
      }
    }

    /** `close`, for a descriptor whose slot was given back or not yet put into use. */
    method CloseDescriptor(fd: int)
      modifies this`ice
      ensures ice == old(ice).(open := old(ice.open) - {fd})
    {
      ice := ice.(open := ice.open - {fd});
    }

    /** A UDP context for a host, server reflexive or relay candidate. A failed `socket` uses up a
        slot; a failed bind gives it back; a refused candidate leaves it counted and closed. */
    method AddUdpCandidate(g: Gathering)
      requires |ice.sockets| == MAX_SOCKETS
      modifies this`ice
      ensures ice == GatheredUdp(old(ice), g)
    {
      if ice.count >= MAX_SOCKETS {
        return;
      }
      ghost var before := ice;
      var i := ice.count;
      ice := ice.(count := ice.count + 1);
      var fd := OpenSocket(i, g.fd);
      if fd != -1 && !g.up {
        OpenAndClose(before.open, fd, i);
        CloseDescriptor(fd);
        ice := ice.(count := ice.count - 1);
      } else if fd != -1 && !g.added {
        OpenAndClose(before.open, fd, i);
        CloseDescriptor(fd);
      } else if fd != -1 {
        ice := ice.(sockets := ice.sockets[i := ice.sockets[i].(
          fd := fd, tls := false, local := Some(g.kind), state := if g.kind == Host then Gathered else Created)]);
      }
    }

    /** A TLS context for a relay candidate; the connection may still be in progress. A failed
        connection gives the slot back. */
    method AddTlsRelayCandidate(g: Gathering)
      requires |ice.sockets| == MAX_SOCKETS
      modifies this`ice
      ensures ice == GatheredTls(old(ice), g)
    {
      if ice.count >= MAX_SOCKETS {
        return;
      }
      ghost var before := ice;
      var i := ice.count;
      ice := ice.(count := ice.count + 1);
      var fd := OpenSocket(i, g.fd);
      if fd == -1 {
        ice := ice.(count := ice.count - 1);
      } else if !g.up {
        ice := ice.(sockets := ice.sockets[i := ice.sockets[i].(
          fd := fd, tls := true, local := None, state := InProgress)]);
      } else if !g.added {
        OpenAndClose(before.open, fd, i);
        CloseDescriptor(fd);
      } else {
        ice := ice.(sockets := ice.sockets[i := ice.sockets[i].(
          fd := fd, tls := true, local := Some(Relay), state := Created)]);
      }
    }

    /** Gathers candidates: host and server reflexive contexts, and relays. */
    method AddLocalCandidates(gathered: seq<Gathering>)
      requires |ice.sockets| == MAX_SOCKETS
      modifies this`ice
      ensures ice == GatheredAll(old(ice), gathered)
    {
      for k := 0 to |gathered|
        invariant ice == GatheredAll(old(ice), gathered[..k])
      {
        assert gathered[..k + 1][..k] == gathered[..k];
        var g := gathered[k];
        if g.kind == Relay && g.tls {
          AddTlsRelayCandidate(g);
        } else if g.kind != PeerReflexive {
          AddUdpCandidate(g);
        }
      }
      assert gathered[..|gathered|] == gathered;
    }

    /** The TLS connection of slot `i` is up and its relay candidate was added. */
    method MarkCreated(i: nat)
      requires Safe(View()) && i < ice.count && ice.sockets[i].state == InProgress
      modifies this`ice
      ensures Safe(View()) && ice.ServedFrom(old(ice))
      ensures ice == old(ice).(
                sockets := old(ice.sockets)[i := old(ice.sockets)[i].(state := Created, local := Some(Relay))])
    {
      var slot := ice.sockets[i].(state := Created, local := Some(Relay));
      UpdateKeepsTable(ice.sockets, ice.count, ice.open, i, slot);
      ice := ice.(sockets := ice.sockets[i := slot]);
    }

    /** Closes slot `i`: its TURN session has ended, or it can no longer be used. */
    method CloseSlot(i: nat)
      requires Safe(View()) && i < ice.count
      modifies this`ice
      ensures Safe(View()) && ice.ServedFrom(old(ice)) && ice == Freed(old(ice), i)
    {
      FreedTable(ice, i);
      FreeSocketContext(i);
    }

    /** Continues the TLS handshake of slot `i`: a failed one, or a refused candidate, closes it. */
    method ExecuteTlsHandshake(i: nat, answer: TlsAnswer)
      requires Safe(View()) && i < ice.count && ice.sockets[i].state == InProgress
      modifies this`ice
      ensures Safe(View()) && ice.ServedFrom(old(ice))
      ensures ice.sockets == old(ice.sockets)[i := ice.sockets[i]]
      ensures ice.sockets[i].state == TlsState(answer)
      ensures ice.sockets[i].state == Created ==>
                && ice.sockets[i].local == Some(Relay) && ice.sockets[i].fd == old(ice.sockets)[i].fd
                && ice.open == old(ice.open)
      ensures answer == TlsWaiting ==> ice == old(ice)
    {
      if answer == TlsDone(true) {
        MarkCreated(i);
      } else if answer != TlsWaiting {
        CloseSlot(i);
      }
    }

    /** Continues a handshake, or sends the candidate's next request. */
    method ProcessSlot(i: nat, answer: SlotAnswer)
      requires Safe(View()) && i < ice.count
      modifies this`ice, this`queue
      ensures Safe(View()) && old(queue) <= queue && ice.ServedFrom(old(ice))
      ensures ice.sockets == old(ice.sockets)[i := ice.sockets[i]]
      ensures ice.sockets[i].state == PassState(old(ice.sockets)[i], answer)
    {
      if ice.sockets[i].state == InProgress {
        ExecuteTlsHandshake(i, answer.tls);
      } else if ice.sockets[i].local.Some? && answer.request.Some? {
        var _ := SendBeating(i, answer.request.value);
      }
    }

    /** One pass over the contexts: each handshake in progress goes on and each candidate's request is sent. */
    method ProcessLocalCandidates(answers: seq<SlotAnswer>)
      requires Safe(View())
      modifies this`ice, this`queue
      ensures Safe(View()) && old(queue) <= queue && ice.ServedFrom(old(ice))
      ensures Passed(old(ice.sockets), ice.sockets, answers)
      ensures answers == [] ==> ice == old(ice) && queue == old(queue)
    {
      ghost var before, q := ice, queue;
      for i := 0 to ice.count
        invariant Safe(View()) && q <= queue && ice.ServedFrom(before)
        invariant forall k :: 0 <= k < i ==> ice.sockets[k].state == PassState(before.sockets[k], AnswerAt(answers, k))
        invariant forall k :: i <= k < |ice.sockets| ==> ice.sockets[k] == before.sockets[k]
        invariant answers == [] ==> ice == before && queue == q
      {
        if i < |answers| {
          ProcessSlot(i, answers[i]);
        }
      }
      RestIdle(before, answers);
    }

    /** Frees every other context of the table but relay ones, which must end their TURN session. */
    method ReleaseOtherSockets()
      requires ice.Table()
      modifies this`ice
      ensures ice.Table() && ice.ServedFrom(old(ice))
      ensures ice == old(ice).(sockets := ice.sockets, open := ice.open)
      ensures ice.nominated.None? ==> ice == old(ice)
      ensures ice.nominated.Some? ==> forall k :: 0 <= k < ice.count ==>
                ice.sockets[k] == FreedSlot(old(ice.sockets)[k],
                                            k == ice.nominated.value || old(ice.sockets)[k].local == Some(Relay))
    {
      if ice.nominated.None? {
        return;
      }
      ghost var before := ice;
      FreeOthers(ice.nominated.value);
      OthersReleased(before, before.nominated.value, ice);
    }

    method FreeOthers(chosen: nat)
      requires ice.Table() && chosen < ice.count
      modifies this`ice
      ensures ice == FreedBut(old(ice), OthersKept(old(ice), chosen), old(ice.count))
    {
      ghost var before, kept := ice, OthersKept(ice, chosen);
      var n := ice.count;
      for i := 0 to n
        invariant ice == FreedBut(before, kept, i)
      {
        FreedButAt(before, kept, i, i);
        FreedButAt(before, kept, i, chosen);
        assert SlotValid(before.sockets[i], i, n, before.open);
        assert SlotValid(before.sockets[chosen], chosen, n, before.open);
        ReleaseOther(i, chosen);
      }
    }

    /** Frees slot `i` unless it shares its descriptor with the chosen one, or is a relay. */
    method ReleaseOther(i: nat, chosen: nat)
      requires i < |ice.sockets| && chosen < |ice.sockets|
      requires ice.sockets[i].fd == ice.sockets[chosen].fd != -1 ==> i == chosen
      modifies this`ice
      ensures ice == if i == chosen || old(ice.sockets)[i].local == Some(Relay) then old(ice) else Freed(old(ice), i)
    {
      if ice.sockets[i].fd != ice.sockets[chosen].fd && ice.sockets[i].local != Some(Relay) {
        FreeSocketContext(i);
      }
    }

    // ------------------------------------------------------------------ closing

    /** Frees every context but the lingering ones; tells whether any lingers. */
    method CloseContexts() returns (needRelease: bool)
      requires ice.Table()
      modifies this`ice
      ensures needRelease <==> AnyLingers(old(ice.sockets))
      ensures ice == FreedBut(old(ice), Lingering(old(ice)), old(ice.count))
    {
      needRelease := false;
      ghost var before, kept, lingering := ice, Lingering(ice), 0;
      var n := ice.count;
      for i := 0 to n
        invariant ice == FreedBut(before, kept, i)
        invariant needRelease ==> 0 <= lingering < i && Lingers(before.sockets[lingering])
        invariant !needRelease ==> forall k :: 0 <= k < i ==> !Lingers(before.sockets[k])
      {
        FreedButAt(before, kept, i, i);
        assert SlotValid(before.sockets[i], i, n, before.open);
        if Lingers(ice.sockets[i]) {
          needRelease, lingering := true, i;
        } else {
          ReleaseSlot(i);
        }
      }
      NoneLingersPast(before);
    }

    /** Frees slot `i` if it is in use. */
    method ReleaseSlot(i: nat)
      requires i < |ice.sockets| && (ice.sockets[i].state == Unused ==> ice.sockets[i].fd == -1)
      modifies this`ice
      ensures ice == Freed(old(ice), i)
    {
      if ice.sockets[i].state != Unused {
        FreeSocketContext(i);
      }
    }

    /** Slots past the count do not linger. */
    static lemma NoneLingersPast(c: IceController)
      requires c.Table()
      ensures forall k :: c.count <= k < |c.sockets| ==> !Lingers(c.sockets[k])
    {
      forall k | c.count <= k < |c.sockets| ensures !Lingers(c.sockets[k]) {
        assert SlotValid(c.sockets[k], k, c.count, c.open);
      }
    }

    /** Stops polling, tells the session and enters CLOSED. `active`: the session counts on being told. */
    method EnterClosed(active: bool)
      requires ice.Table() && |queue| <= MAX_QUEUED
      requires !drained && active ==>
                 Beating(ice.timerArmed, queue, ice.IsNominated()) || |queue| < MAX_QUEUED
      modifies this`ice, this`queue, this`owed
      ensures Safe(View())
      ensures ice == old(ice).(state := IceClosed, polling := false)
      ensures queue == Queued(old(queue), RequestIceClosed)
      ensures owed == active
    {
      ice := ice.(polling := false);
      ghost var q := queue;
      var sent := SendEvent(RequestIceClosed);
      if Beating(ice.timerArmed, q, ice.IsNominated()) {
        BeatingGrows(ice.timerArmed, q, ice.IsNominated(), ice.timerArmed, queue, ice.IsNominated());
      }
      assert sent ==> queue[|queue| - 1] == RequestIceClosed;
      ice := ice.(state := IceClosed);
      owed := active;
    }

    /** Closes everything but relay contexts. CLOSED is entered exactly when none of those is open,
        and then no descriptor is left. */
    method Destroy() returns (ok: bool)
      requires Safe(View())
      modifies this`ice, this`queue, this`owed
      ensures Safe(View()) && ice.RanFrom(old(ice)) && ice.nominated == old(ice.nominated)
      ensures ok <==> Destroyable(old(ice.state))
      ensures !ok ==> ice == old(ice) && queue == old(queue) && owed == old(owed)
      ensures ok ==> forall k :: 0 <= k < |ice.sockets| ==> ice.sockets[k] == Released(old(ice.sockets)[k])
      ensures ok ==> (ice.state == IceClosed <==> !AnyLingers(old(ice.sockets)))
      ensures ok && ice.state == IceClosed ==>
                && ice.open == map[] && !ice.polling
                && queue == Queued(old(queue), RequestIceClosed) && (owed <==> Active(old(ice.state)))
      ensures ok && ice.state != IceClosed ==>
                && ice.state == (if old(ice.state) == IceNew then IceNone else IceClosing)
                && ice.timerArmed && ice.timerIntervalMs == CLOSING_MS && queue == old(queue) && !owed
    {
      if !Destroyable(ice.state) {
        return false;
      }
      Release();
      return true;
    }

    /** Leaves the active states and frees what need not linger. */
    method BeginClosing() returns (needRelease: bool)
      requires ice.Table()
      modifies this`ice
      ensures needRelease <==> AnyLingers(old(ice.sockets))
      ensures ice.Table() && NoneOpened(old(ice.sockets), ice.sockets)
      ensures ice == old(ice).(state := ice.state, sockets := ice.sockets, open := ice.open)
      ensures ice.state == (if old(ice.state) == IceNew then IceNone else IceClosing)
      ensures forall k :: 0 <= k < |ice.sockets| ==> ice.sockets[k] == Released(old(ice.sockets)[k])
      ensures ice.open.Keys <= old(ice.open).Keys && (!needRelease ==> ice.open == map[])
    {
      ice := ice.(state := if ice.state == IceNew then IceNone else IceClosing);
      ghost var before := ice;
      needRelease := CloseContexts();
      ReleasedTable(before, ice);
    }

    /** Enters CLOSED, or waits for the relays in CLOSING. */
    method Release()
      requires Safe(View()) && Destroyable(ice.state)
      modifies this`ice, this`queue, this`owed
      ensures Safe(View()) && ice.RanFrom(old(ice)) && ice.nominated == old(ice.nominated)
      ensures forall k :: 0 <= k < |ice.sockets| ==> ice.sockets[k] == Released(old(ice.sockets)[k])
      ensures if AnyLingers(old(ice.sockets))
              then && ice.state == (if old(ice.state) == IceNew then IceNone else IceClosing)
                   && ice.timerArmed && ice.timerIntervalMs == CLOSING_MS && queue == old(queue) && !owed
              else && ice.state == IceClosed && ice.open == map[] && !ice.polling
                   && queue == Queued(old(queue), RequestIceClosed) && (owed <==> Active(old(ice.state)))
    {
      assert !owed;
      var wasActive := Active(ice.state);
      var needRelease := BeginClosing();
      if !needRelease {
        EnterClosed(wasActive);
      } else {
        UpdateTimerInterval(CLOSING_MS);
      }
    }

    // ------------------------------------------------------------------ notices

    /** Calls one track back. */
    method NotifyTrack(t: Track, ready: bool)
      requires video != audio
      modifies video, audio
      ensures t == Video ==> audio.numReadyPeer == old(audio.numReadyPeer)
      ensures t == Audio ==> video.numReadyPeer == old(video.numReadyPeer)
      ensures (if t == Video then video else audio).numReadyPeer ==
              Told(old((if t == Video then video else audio).numReadyPeer),
                   (if t == Video then video else audio).maxPeers, ready)
    {
      var source := if t == Video then video else audio;
      if ready {
        source.RemotePeerReady();
      } else {
        source.RemotePeerClosed();
      }
    }

    /** A track's count after a notice. */
    static function Told(n: nat, max: nat, ready: bool): nat {
      if ready then if n < max then n + 1 else n
      else if n > 0 then n - 1 else 0
    }

    /** Tells the track of each transceiver. */
    method NotifyTransceivers(ready: bool)
      requires video != audio && transceivers == BOTH_TRACKS
      modifies video, audio
      ensures video.numReadyPeer == Told(old(video.numReadyPeer), video.maxPeers, ready)
      ensures audio.numReadyPeer == Told(old(audio.numReadyPeer), audio.maxPeers, ready)
    {
      NotifyTrack(transceivers[0], ready);
      NotifyTrack(transceivers[1], ready);
    }

    /** Leaves CONNECTION_READY, telling each of the session's tracks once. */
    method NotifyAllClosed()
      requires Valid() && Ready()
      modifies this`sessionState, this`log, video, audio
      ensures Valid() && sessionState == SessionClosing
      ensures log == old(log) + ClosedNotices()
      ensures video.numReadyPeer == old(video.numReadyPeer) - 1 && audio.numReadyPeer == old(audio.numReadyPeer) - 1
    {
      AppendBothClosed(log, ice.IsNominated(), false, fault);
      sessionState := SessionClosing;
      NotifyTransceivers(false);
      log := log + [PeerClosed(transceivers[0]), PeerClosed(transceivers[1])];
    }

    /** Enters CONNECTION_READY, telling each of the session's tracks once. */
    method NotifyAllReady()
      requires Valid() && transceivers != []
      modifies this`sessionState, this`log, this`capped, video, audio
      ensures Valid() && Ready()
      ensures log == old(log) + Leaving(old(Ready())) + ReadyNotices()
      ensures video.numReadyPeer == Told(old(video.numReadyPeer), video.maxPeers, true)
      ensures audio.numReadyPeer == Told(old(audio.numReadyPeer), audio.maxPeers, true)
      ensures capped == old(capped) + if old(video.numReadyPeer) == video.maxPeers then 1 else 0
    {
      var silent := Leaving(Ready());
      AppendSilent(log, ice.IsNominated(), Ready(), false, fault);
      AppendReady(log + silent, ice.IsNominated(), false, fault);
      capped := capped + if video.numReadyPeer == video.maxPeers then 1 else 0;
      sessionState := ConnectionReady;
      NotifyTransceivers(true);
      log := log + silent + [PeerReady(transceivers[0]), PeerReady(transceivers[1])];
    }

    /** Enters a state without any notice; a session that was ready is then still counted. */
    method MoveTo(state: SessionState)
      requires Valid() && state != ConnectionReady && (state == Inited ==> transceivers == [])
      modifies this`sessionState, this`log
      ensures Valid() && sessionState == state && log == old(log) + Leaving(old(Ready()))
    {
      AppendSilent(log, ice.IsNominated(), Ready(), transceivers == [], fault);
      log := log + Leaving(Ready());
      sessionState := state;
    }

    /** Closes the session: notices go out only from CONNECTION_READY, then the controller is destroyed. */
    method CloseSession()
      requires Valid()
      modifies this`sessionState, this`queue, this`ice, this`owed, this`log, video, audio
      ensures Valid() && sessionState == SessionClosing && ice.RanFrom(old(ice))
      ensures log == old(log) + if old(Ready()) then ClosedNotices() else []
      ensures queue == if ice.state == IceClosed && Destroyable(old(ice.state))
                       then Queued(old(queue), RequestIceClosed) else old(queue)
      ensures Destroyable(old(ice.state)) ==> (ice.state == IceClosed <==> !AnyLingers(old(ice.sockets)))
      ensures ice.state in {IceNone, IceClosing, IceClosed}
      ensures ice.nominated == old(ice.nominated)
    {
      if Ready() {
        NotifyAllClosed();
      }
      sessionState := SessionClosing;
      var _ := Destroy();
    }

    // ------------------------------------------------------------------ DTLS

    /** A send to the peer that broke left the socket closed. */
    static predicate Cut(before: IceController, after: IceController, sends: seq<SendAnswer>) {
      before.Sendable() && Broken in sends ==>
        before.nominated.value < |after.sockets| && after.sockets[before.nominated.value].state == Unused
    }

    /** `ForeignSends` as a step of the session. */
    method SendMeanwhile(answers: seq<SendAnswer>)
      requires Valid()
      modifies this`ice, this`queue
      ensures Valid() && ice.RanFrom(old(ice)) && old(queue) <= queue && ice.nominated == old(ice.nominated)
      ensures Broken !in answers ==> View() == old(View())
      ensures Cut(old(ice), ice, answers)
    {
      assert ice.Sendable() ==> SlotValid(ice.sockets[ice.nominated.value], ice.nominated.value, ice.count, ice.open);
      ForeignSends(answers);
    }

    /** Starts the report timers of both transceiver slots, without checking that they are set. */
    method SetTimer()
      requires Valid() && !fault
      modifies this`fault, this`log
      ensures Valid() && log == old(log) + [HandshakeCompleted]
      ensures fault <==> transceivers == []
    {
      AppendOther(log, ice.IsNominated(), Ready(), transceivers == [], fault, HandshakeCompleted);
      log := log + [HandshakeCompleted];
      fault := |transceivers| < |BOTH_TRACKS|;
    }

    /** A session with transceivers becomes ready; one without does not survive. */
    method BecomeReady() returns (ok: bool)
      requires Valid() && !fault
      modifies this`sessionState, this`ice, this`log, this`fault, this`capped, video, audio
      ensures Valid() && ice.ServedFrom(old(ice))
      ensures fault <==> transceivers == []
      ensures ok <==> !fault
      ensures ok ==> Ready() && log == old(log) + [HandshakeCompleted] + Leaving(old(Ready())) + ReadyNotices()
      ensures fault ==> sessionState == old(sessionState) && log == old(log) + [HandshakeCompleted]
    {
      SetTimer();
      ok := !fault;
      if ok {
        NotifyAllReady();
        ReleaseOtherSockets();
      }
    }

    /** The handshake is over: ready if the certificate, the keys and the SRTP and SCTP sessions are
        in order, closed otherwise. */
    method OnDtlsHandshakeComplete(completion: Completion) returns (ok: bool)
      requires Valid() && !fault
      modifies this`sessionState, this`queue, this`ice, this`owed, this`log, this`fault, this`capped,
               video, audio
      ensures Valid() && old(queue) <= queue && ice.RanFrom(old(ice))
      ensures fault <==> completion.inOrder && transceivers == []
      ensures ok <==> completion.inOrder && transceivers != []
      ensures ok ==> Ready() && log == old(log) + [HandshakeCompleted] + Leaving(old(Ready())) + ReadyNotices()
      ensures fault ==> sessionState == old(sessionState) && log == old(log) + [HandshakeCompleted]
      ensures !completion.inOrder ==> sessionState == SessionClosing
      ensures ice.nominated == old(ice.nominated)
      ensures Cut(old(ice), ice, completion.sends)
    {
      SendMeanwhile(completion.sends);
      if completion.inOrder {
        ok := BecomeReady();
      } else {
        CloseSession();
        ok := false;
      }
    }

    /** The handshake completes in this call. */
    static predicate Ends(state: DtlsTransport.DtlsState, call: HandshakeCall) {
      state != DtlsTransport.DtlsReady && call.answer == DtlsTransport.HandshakeDone
    }

    /** The call leaves the handshake as it is: it waits for the peer or was over before. */
    static predicate Waits(state: DtlsTransport.DtlsState, call: HandshakeCall) {
      state == DtlsTransport.DtlsReady || call.answer == DtlsTransport.HandshakeWantRead
    }

    /** One call into mbedTLS; a complete handshake is acted on at once. */
    method ContinueDtlsHandshake(call: HandshakeCall) returns (ok: bool)
      requires Valid() && !fault
      modifies this`sessionState, this`queue, this`ice, this`owed, this`log, this`fault, this`capped,
               dtls, video, audio
      ensures Valid() && old(queue) <= queue && ice.RanFrom(old(ice))
      ensures fault <==> Ends(old(dtls.state), call) && call.completion.inOrder && transceivers == []
      ensures ok <==> Waits(old(dtls.state), call)
                      || (Ends(old(dtls.state), call) && call.completion.inOrder && transceivers != [])
      ensures Ends(old(dtls.state), call) ==>
                if call.completion.inOrder then Finished() else sessionState == SessionClosing
      ensures !Ends(old(dtls.state), call) ==> sessionState == old(sessionState) && dtls.state == old(dtls.state)
      ensures ice.nominated == old(ice.nominated)
      ensures Cut(old(ice), ice, call.sends)
    {
      SendMeanwhile(call.sends);
      var status := dtls.ExecuteHandshake(call.answer);
      ok := status in {DtlsTransport.Success, DtlsTransport.HandshakeAlreadyComplete};
      if status == DtlsTransport.HandshakeComplete {
        ok := OnDtlsHandshakeComplete(call.completion);
      }
    }

    /** Runs the handshake once; the session closes when time is up and the call did not fail. */
    method ExecuteDtlsHandshake(call: HandshakeCall)
      requires Valid() && !fault
      modifies this`sessionState, this`queue, this`ice, this`owed, this`log, this`fault, this`capped,
               dtls, video, audio
      ensures Valid() && old(queue) <= queue && ice.RanFrom(old(ice))
      ensures fault <==> Ends(old(dtls.state), call) && call.completion.inOrder && transceivers == []
      ensures Ends(old(dtls.state), call) && call.completion.inOrder && !call.timedOut ==> Finished()
      ensures Ends(old(dtls.state), call) && !call.completion.inOrder ==> sessionState == SessionClosing
      ensures Waits(old(dtls.state), call) || (Ends(old(dtls.state), call) && !fault) ==>
                (call.timedOut ==> sessionState == SessionClosing)
      ensures !Ends(old(dtls.state), call) ==> dtls.state == old(dtls.state)
      ensures !Ends(old(dtls.state), call) && !(Waits(old(dtls.state), call) && call.timedOut) ==>
                sessionState == old(sessionState)
      ensures ice.nominated == old(ice.nominated)
      ensures Cut(old(ice), ice, call.sends)
    {
      var ok := ContinueDtlsHandshake(call);
      if ok && call.timedOut {
        CloseSession();
      }
    }

    /** What makes a record complete the handshake. */
    static predicate Completes(state: DtlsTransport.DtlsState, record: DtlsRecord) {
      && state == DtlsTransport.DtlsHandshaking && record.over
      && DtlsTransport.ReadStatus(record.answers) == DtlsTransport.Success
    }

    /** A DTLS record arrived: feed it to mbedTLS; a failed read closes the session. */
    method ProcessDtlsPacket(record: DtlsRecord)
      requires Valid() && !fault
      modifies this`sessionState, this`queue, this`ice, this`owed, this`log, this`fault, this`capped,
               dtls, video, audio
      ensures Valid() && old(queue) <= queue && ice.RanFrom(old(ice))
      ensures fault <==> Completes(old(dtls.state), record) && record.completion.inOrder && transceivers == []
      ensures Completes(old(dtls.state), record) && record.completion.inOrder ==> Finished()
      ensures DtlsTransport.ReadStatus(record.answers) != DtlsTransport.Success ==> sessionState == SessionClosing
      ensures Completes(old(dtls.state), record) && !record.completion.inOrder ==> sessionState == SessionClosing
      ensures !Completes(old(dtls.state), record)
              && DtlsTransport.ReadStatus(record.answers) == DtlsTransport.Success ==>
                sessionState == old(sessionState) && dtls.state == old(dtls.state)
      ensures Cut(old(ice), ice, record.sends)
    {
      SendMeanwhile(record.sends);
      var status := dtls.ProcessPacket(record.answers, record.over);
      if status == DtlsTransport.HandshakeComplete {
        var _ := OnDtlsHandshakeComplete(record.completion);
      } else if status != DtlsTransport.Success {
        HandleDtlsTermination(record.closing);
      }
    }

    /** Disconnecting sends a close notice before the session closes. */
    method HandleDtlsTermination(sends: seq<SendAnswer>)
      requires Valid()
      modifies this`sessionState, this`queue, this`ice, this`owed, this`log, video, audio
      ensures Valid() && old(queue) <= queue && ice.RanFrom(old(ice))
      ensures sessionState == SessionClosing
      ensures Cut(old(ice), ice, sends)
    {
      SendMeanwhile(sends);
      CloseSession();
    }

    // ------------------------------------------------------------------ nomination

    /** Points the nomination at slot `i`. */
    method SelectSocket(i: nat)
      requires Valid() && i < ice.count
      requires ice.sockets[i].fd != -1 && ice.sockets[i].state != InProgress
      modifies this`ice
      ensures Valid()
      ensures ice == old(ice).(
                nominated := Some(i),
                sockets := old(ice.sockets)[i := old(ice.sockets)[i].(state := Selected, hasPair := true)])
    {
      var slot := ice.sockets[i].(state := Selected, hasPair := true);
      UpdateKeepsTable(ice.sockets, ice.count, ice.open, i, slot);
      ghost var was := ice.IsNominated();
      ice := ice.(sockets := ice.sockets[i := slot], nominated := Some(i));
      if Beating(ice.timerArmed, queue, was) {
        BeatingGrows(ice.timerArmed, queue, was, ice.timerArmed, queue, true);
      }
    }

    /** The first nomination since a start: the controller is ready and the handshake begins. */
    method ReportConnection(call: HandshakeCall)
      requires Valid() && !fault && ice.nominated.Some? && Clear(log, ConnectionFound, IceStarted)
      modifies this`sessionState, this`queue, this`ice, this`owed, this`log, this`fault, this`capped,
               dtls, video, audio
      ensures Valid() && old(queue) <= queue && ice.RanFrom(old(ice))
      ensures fault || sessionState == P2PFound
      ensures fault <==> Ends(old(dtls.state), call) && call.completion.inOrder && transceivers == []
      ensures !Ends(old(dtls.state), call) ==> dtls.state == old(dtls.state)
      ensures ice.nominated == old(ice.nominated)
    {
      EnterReady();
      ExecuteDtlsHandshake(call);
      if !fault {
        MoveTo(P2PFound);
      }
    }

    /** The controller is ready and FOUND is reported. */
    method EnterReady()
      requires Valid() && ice.nominated.Some? && Clear(log, ConnectionFound, IceStarted)
      modifies this`ice, this`owed, this`log
      ensures Valid() && log == old(log) + [ConnectionFound]
      ensures ice == old(ice).(state := IceReady, timerArmed := true, timerIntervalMs := PERIODIC_MS)
    {
      AppendFound(log, Ready(), transceivers == [], fault);
      ice := ice.(state := IceReady);
      owed := false;
      UpdateTimerInterval(PERIODIC_MS);
      log := log + [ConnectionFound];
    }

    /** Nominates slot `i`. Only the first nomination since a start reports the connection. */
    method UpdateNominatedSocketContext(i: nat, pairFound: bool, call: HandshakeCall) returns (r: NetResult)
      requires Valid() && !fault && i < ice.count
      requires ice.sockets[i].fd != -1 && ice.sockets[i].state != InProgress
      modifies this`sessionState, this`queue, this`ice, this`owed, this`log, this`fault, this`capped,
               dtls, video, audio
      ensures Valid() && old(queue) <= queue && ice.RanFrom(old(ice))
      ensures r == if pairFound then Ok else Failed
      ensures !pairFound ==>
                ice == old(ice) && log == old(log) && dtls.state == old(dtls.state)
                && sessionState == old(sessionState) && !fault
      ensures pairFound && old(ice.nominated).None? ==> fault || sessionState == P2PFound
      ensures pairFound && old(ice.nominated).Some? ==>
                && log == old(log) && sessionState == old(sessionState) && dtls.state == old(dtls.state) && !fault
                && ice == old(ice).(
                     nominated := Some(i),
                     sockets := old(ice.sockets)[i := old(ice.sockets)[i].(state := Selected, hasPair := true)])
      ensures call.answer != DtlsTransport.HandshakeDone ==> dtls.state == old(dtls.state) && !fault
      ensures pairFound ==> ice.nominated == Some(i)
    {
      if !pairFound {
        return Failed;
      }
      var first := ice.nominated.None? || !ice.sockets[ice.nominated.value].hasPair;
      SelectSocket(i);
      if first {
        ReportConnection(call);
      }
      return Ok;
    }

    // ------------------------------------------------------------------ receiving

    /** The reflexive or relayed address of slot `i` is known. */
    method MarkGathered(i: nat)
      requires Safe(View()) && i < ice.count
      requires ice.sockets[i].fd != -1 && ice.sockets[i].state != InProgress
      modifies this`ice
      ensures Safe(View()) && ice.ServedFrom(old(ice))
      ensures ice == old(ice).(sockets := old(ice.sockets)[i := old(ice.sockets)[i].(state := Gathered)])
    {
      var slot := ice.sockets[i].(state := Gathered);
      UpdateKeepsTable(ice.sockets, ice.count, ice.open, i, slot);
      ice := ice.(sockets := ice.sockets[i := slot]);
    }

    /** The packet makes the first nomination possible: its pair has succeeded, nothing is nominated yet, and the
        response that it may ask for went out. */
    static predicate Finds(c: IceController, stun: StunAnswer) {
      && stun.succeeded && c.nominated.None?
      && (stun.action == PairReady || (stun.action == SendResponse && stun.first == Taken))
    }

    /** A message that the packet is answered with finds the socket broken. */
    static predicate Breaks(stun: StunAnswer) {
      || (stun.action in {SendResponse, SendRequest, ResponseAndNominate, Nominate} && stun.first == Broken)
      || (stun.action == ResponseAndNominate && stun.first == Taken && stun.second == Broken)
    }

    /** What a STUN packet received on slot `i` makes the controller do. */
    method HandleStunPacket(i: nat, stun: StunAnswer) returns (r: NetResult)
      requires Safe(View()) && i < ice.count
      requires ice.sockets[i].fd != -1 && ice.sockets[i].state != InProgress
      modifies this`ice, this`queue
      ensures Safe(View()) && old(queue) <= queue && ice.ServedFrom(old(ice))
      ensures r == FoundConnection <==> Finds(old(ice), stun)
      ensures r == ConnectionClosed <==> stun.action == SessionTerminated
      ensures QuietStun(stun) ==> r == Ok
      ensures stun.action == AddressUpdated ==>
                ice == old(ice).(sockets := old(ice.sockets)[i := old(ice.sockets)[i].(state := Gathered)])
      ensures stun.action == SessionTerminated || Breaks(stun) ==>
                ice.sockets == old(ice.sockets)[i := ice.sockets[i]] && ice.sockets[i].state == Unused
      ensures stun.action != AddressUpdated && stun.action != SessionTerminated && !Breaks(stun) ==>
                ice == old(ice) && queue == old(queue)
    {
      r := Ok;
      assert SlotValid(ice.sockets[i], i, ice.count, ice.open);
      if stun.action == AddressUpdated {
        MarkGathered(i);
      } else if stun.action == SessionTerminated {
        CloseSlot(i);
        r := ConnectionClosed;
      } else {
        r := SendAndCheck(i, stun);
      }
    }

    /** Answers a packet and tells whether its pair makes the first nomination. */
    method SendAndCheck(i: nat, stun: StunAnswer) returns (r: NetResult)
      requires Safe(View()) && i < ice.count && stun.action != AddressUpdated && stun.action != SessionTerminated
      requires ice.sockets[i].fd != -1 && ice.sockets[i].state != InProgress
      modifies this`ice, this`queue
      ensures Safe(View()) && old(queue) <= queue && ice.ServedFrom(old(ice))
      ensures r == FoundConnection <==> Finds(old(ice), stun)
      ensures r != ConnectionClosed && (QuietStun(stun) ==> r == Ok)
      ensures Breaks(stun) ==> ice.sockets == old(ice.sockets)[i := ice.sockets[i]] && ice.sockets[i].state == Unused
      ensures !Breaks(stun) ==> ice == old(ice) && queue == old(queue)
    {
      r := SendForStun(i, stun);
      var checks := stun.action == SendResponse || stun.action == PairReady;
      if r == Ok && checks && stun.succeeded && ice.nominated.None? {
        r := FoundConnection;
      }
    }

    /** The messages a STUN packet is answered with: a response, a request, or both in turn. */
    method SendForStun(i: nat, stun: StunAnswer) returns (r: NetResult)
      requires Safe(View()) && i < ice.count && stun.action != AddressUpdated && stun.action != SessionTerminated
      requires ice.sockets[i].fd != -1 && ice.sockets[i].state != InProgress
      modifies this`ice, this`queue
      ensures Safe(View()) && old(queue) <= queue && ice.ServedFrom(old(ice))
      ensures r in {Ok, AlreadyClosed, SendtoFailed, Failed}
      ensures stun.action == SendResponse ==> (r == Ok <==> stun.first == Taken)
      ensures stun.action in {PairReady, NothingToDo, SendRequest} ==> r == Ok
      ensures stun.action == NotStun ==> r == Failed
      ensures Breaks(stun) ==> ice.sockets == old(ice.sockets)[i := ice.sockets[i]] && ice.sockets[i].state == Unused
      ensures !Breaks(stun) ==> ice == old(ice) && queue == old(queue)
    {
      assert SlotValid(ice.sockets[i], i, ice.count, ice.open);
      r := if stun.action == NotStun then Failed else Ok;
      if stun.action in {SendResponse, SendRequest, ResponseAndNominate, Nominate} {
        r := SendBeating(i, stun.first);
      }
      if stun.action == ResponseAndNominate && r == Ok {
        r := SendBeating(i, stun.second);
      }
      if stun.action == SendRequest {
        r := Ok;
      }
    }

    /** An RTP, RTCP or DTLS packet read from slot `i`. It nominates the slot; `last` is the result left
        by the packet before it, and on the already nominated socket a packet is delivered only if
        that was Ok. An RTCP packet may ask for packets to be sent again. */
    method HandleMediaPacket(i: nat, last: NetResult, packet: Packet) returns (r: NetResult)
      requires Valid() && !fault && i < ice.count && (packet.MediaPacket? || packet.DtlsPacket?)
      requires ice.sockets[i].fd != -1 && ice.sockets[i].state != InProgress
      modifies this`sessionState, this`queue, this`ice, this`owed, this`log, this`fault, this`capped,
               dtls, video, audio
      ensures Valid() && old(queue) <= queue && ice.RanFrom(old(ice))
      ensures old(ice.nominated) == Some(i) ==> r == last
      ensures last == Ok && Acts(old(ice), old(dtls.state), i, packet) ==> Acted(i, packet)
      ensures last == Ok && old(ice).nominated == Some(i) && packet.MediaPacket? ==>
                SentToPeer(old(ice), old(queue), ice, queue, packet.resends)
    {
      ghost var before := ice;
      r := NominateSender(i, last, packet);
      ghost var chosen := ice;
      if r == Ok && !fault {
        Deliver(packet);
      }
      RanOn(before, chosen, ice);
    }

    /** The sender's slot is nominated unless it is already; `r` tells whether the packet is to be delivered. */
    method NominateSender(i: nat, last: NetResult, packet: Packet) returns (r: NetResult)
      requires Valid() && !fault && i < ice.count && (packet.MediaPacket? || packet.DtlsPacket?)
      requires ice.sockets[i].fd != -1 && ice.sockets[i].state != InProgress
      modifies this`sessionState, this`queue, this`ice, this`owed, this`log, this`fault, this`capped,
               dtls, video, audio
      ensures Valid() && old(queue) <= queue && ice.RanFrom(old(ice))
      ensures old(ice.nominated) == Some(i) ==> r == last && View() == old(View()) && dtls.state == old(dtls.state)
      ensures last == Ok && packet.DtlsPacket? && Acts(old(ice), old(dtls.state), i, packet) ==>
                r == Ok && !fault && dtls.state == old(dtls.state)
    {
      r := last;
      if ice.nominated != Some(i) {
        r := UpdateNominatedSocketContext(i, packet.pairFound, packet.handshake);
      }
    }

    /** Hands a packet to DTLS or to SRTP. */
    method Deliver(packet: Packet)
      requires Valid() && !fault && (packet.MediaPacket? || packet.DtlsPacket?)
      modifies this`sessionState, this`queue, this`ice, this`owed, this`log, this`fault, this`capped,
               dtls, video, audio
      ensures Valid() && old(queue) <= queue && ice.RanFrom(old(ice))
      ensures fault <==> packet.DtlsPacket? && Completes(old(dtls.state), packet.record)
                         && packet.record.completion.inOrder && transceivers == []
      ensures packet.DtlsPacket? && Completes(old(dtls.state), packet.record) && packet.record.completion.inOrder ==>
                Finished()
      ensures packet.MediaPacket? ==> SentToPeer(old(ice), old(queue), ice, queue, packet.resends)
    {
      if packet.DtlsPacket? {
        ProcessDtlsPacket(packet.record);
      } else {
        SendReport(packet.resends);
      }
    }

    /** `packet`, read from the open slot `i`, has one of two effects. Either it is a record that completes the
        handshake under way and reaches DTLS, the slot being nominated or its pair known; or it is a STUN packet that
        makes the first nomination, before any handshake is over. */
    static predicate Acts(c: IceController, state: DtlsTransport.DtlsState, i: nat, packet: Packet)
      requires i < |c.sockets|
    {
      && c.sockets[i].fd != -1
      && match packet
         case DtlsPacket(pairFound, call, record) =>
           && Completes(state, record) && record.completion.inOrder
           && (c.nominated == Some(i)
               || (pairFound && (c.nominated.Some? || call.answer != DtlsTransport.HandshakeDone)))
         case StunPacket(stun, pairFound, call) =>
           Finds(c, stun) && pairFound && call.answer != DtlsTransport.HandshakeDone
         case _ => false
    }

    /** The effect: the handshake is over, or slot `i` is nominated and the connection found. */
    ghost predicate Acted(i: nat, packet: Packet)
      reads this
    {
      if packet.DtlsPacket? then Finished() else ice.nominated == Some(i) && sessionState == P2PFound && !fault
    }

    /** What a completed handshake leads to. */
    predicate Finished()
      reads this
    {
      if transceivers == [] then fault else Ready()
    }

    /** `HandleStunPacket` as a step of the session. */
    method AnswerStun(i: nat, stun: StunAnswer) returns (r: NetResult)
      requires Valid() && i < ice.count
      requires ice.sockets[i].fd != -1 && ice.sockets[i].state != InProgress
      modifies this`ice, this`queue
      ensures Valid() && old(queue) <= queue && ice.RanFrom(old(ice))
      ensures r == FoundConnection <==> Finds(old(ice), stun)
      ensures ice.nominated == old(ice.nominated)
      ensures Finds(old(ice), stun) || QuietStun(stun) ==> View() == old(View())
      ensures QuietStun(stun) ==> r == Ok
    {
      r := HandleStunPacket(i, stun);
    }

    /** A STUN packet read from slot `i`. It completes the first nomination exactly when it can and its pair is
        known. */
    method HandleStunAndNominate(i: nat, packet: Packet) returns (r: NetResult)
      requires Valid() && !fault && i < ice.count && packet.StunPacket?
      requires ice.sockets[i].fd != -1 && ice.sockets[i].state != InProgress
      modifies this`sessionState, this`queue, this`ice, this`owed, this`log, this`fault, this`capped,
               dtls, video, audio
      ensures Valid() && old(queue) <= queue && ice.RanFrom(old(ice))
      ensures r == FoundConnection <==> Finds(old(ice), packet.stun)
      ensures Finds(old(ice), packet.stun) && packet.pairFound ==>
                ice.nominated == Some(i) && (fault || sessionState == P2PFound)
      ensures !(Finds(old(ice), packet.stun) && packet.pairFound) ==>
                ice.nominated == old(ice.nominated) && sessionState == old(sessionState) && !fault
      ensures Acts(old(ice), old(dtls.state), i, packet) ==> Acted(i, packet)
      ensures Quiet(packet) ==> View() == old(View()) && dtls.state == old(dtls.state) && r == Ok
    {
      r := AnswerStun(i, packet.stun);
      if r == FoundConnection {
        var _ := UpdateNominatedSocketContext(i, packet.pairFound, packet.handshake);
      }
    }

    /** One packet read from slot `i`, by its first byte. */
    method HandlePacket(i: nat, last: NetResult, packet: Packet) returns (r: NetResult)
      requires Valid() && !fault && i < ice.count
      requires ice.sockets[i].fd != -1 && ice.sockets[i].state != InProgress
      modifies this`sessionState, this`queue, this`ice, this`owed, this`log, this`fault, this`capped,
               dtls, video, audio
      ensures Valid() && old(queue) <= queue && ice.RanFrom(old(ice))
      ensures last == Ok && Acts(old(ice), old(dtls.state), i, packet) ==> Acted(i, packet)
      ensures Quiet(packet) ==> View() == old(View()) && dtls.state == old(dtls.state) && r == Ok
      ensures packet.UnknownPacket? ==> View() == old(View()) && dtls.state == old(dtls.state) && r == last
    {
      r := last;
      if packet.MediaPacket? || packet.DtlsPacket? {
        r := HandleMediaPacket(i, last, packet);
      } else if packet.StunPacket? {
        r := HandleStunAndNominate(i, packet);
      }
    }

    /** Reads slot `i` until nothing is left; a read error closes the slot. */
    method HandleRxPacket(i: nat, packets: seq<Packet>)
      requires Valid() && !fault && i < ice.count && ice.sockets[i].state != InProgress
      modifies this`sessionState, this`queue, this`ice, this`owed, this`log, this`fault, this`capped,
               dtls, video, audio
      ensures Valid() && old(queue) <= queue && ice.RanFrom(old(ice))
      ensures ActingRead(old(ice), old(dtls.state), i, packets) ==> Acted(i, packets[|packets| - 1])
      ensures FailingRead(packets) && old(ice.sockets)[i].fd != -1 ==>
                ice == Freed(old(ice), i) && queue == old(queue) && sessionState == old(sessionState) && !fault
      ensures AllQuiet(packets) ==> View() == old(View()) && dtls.state == old(dtls.state)
    {
      ghost var before := ice;
      var failed := ReadAll(i, packets);
      ghost var read := ice;
      CloseUnreadable(i, failed);
      RanOn(before, read, ice);
    }

    /** After quiet packets comes one that acts. */
    static predicate ActingRead(c: IceController, state: DtlsTransport.DtlsState, i: nat, packets: seq<Packet>)
      requires i < |c.sockets|
    {
      packets != [] && AllQuiet(packets[..|packets| - 1]) && Acts(c, state, i, packets[|packets| - 1])
    }

    /** After quiet packets a read fails. */
    static predicate FailingRead(packets: seq<Packet>) {
      packets != [] && AllQuiet(packets[..|packets| - 1]) && packets[|packets| - 1].ReadError?
    }

    /** Reads slot `i` until nothing is left, a read fails or the connection is over. */
    method ReadAll(i: nat, packets: seq<Packet>) returns (failed: bool)
      requires Valid() && !fault && i < ice.count && ice.sockets[i].state != InProgress
      modifies this`sessionState, this`queue, this`ice, this`owed, this`log, this`fault, this`capped,
               dtls, video, audio
      ensures Valid() && old(queue) <= queue && ice.RanFrom(old(ice))
      ensures ActingRead(old(ice), old(dtls.state), i, packets) ==> !failed && Acted(i, packets[|packets| - 1])
      ensures FailingRead(packets) && old(ice.sockets)[i].fd != -1 ==> failed && View() == old(View())
      ensures AllQuiet(packets) ==>
                View() == old(View()) && dtls.state == old(dtls.state) && (failed ==> ice.sockets[i].fd == -1)
    {
      ghost var before, q, acting, n := ice, queue, ActingRead(ice, dtls.state, i, packets), |packets| - 1;
      ghost var view, state, quiet := View(), dtls.state, AllQuiet(packets);
      ghost var calm, open := n < 0 || AllQuiet(packets[..n]), ice.sockets[i].fd != -1;
      var r, k := Ok, 0;
      failed := false;
      while k < |packets| && !failed && r != ConnectionClosed && !fault
        invariant Valid() && q <= queue && ice.RanFrom(before)
        invariant 0 <= k <= |packets|
        invariant calm && (k <= n || quiet) ==>
                    View() == view && dtls.state == state && (open ==> r == Ok && !failed)
        invariant calm && open && k == n + 1 && n >= 0 && packets[n].ReadError? ==> failed && View() == view
        invariant acting && k == n + 1 ==> !failed && Acted(i, packets[n])
      {
        assert calm && k < n ==> Quiet(packets[..n][k]);
        assert acting && k == n ==> Acts(ice, dtls.state, i, packets[k]);
        r, failed := ReadNext(i, r, packets[k], before, q);
        k := k + 1;
      }
    }

    /** Closes slot `i` if a read failed. */
    method CloseUnreadable(i: nat, failed: bool)
      requires Valid() && i < ice.count
      modifies this`ice
      ensures Valid() && ice.RanFrom(old(ice)) && ice == if failed then Freed(old(ice), i) else old(ice)
      ensures failed && old(ice.sockets)[i].fd == -1 ==> ice == old(ice)
    {
      if failed {
        CloseSlot(i);
      }
    }

    /** `ReadOne` since the controller was `before` and the queue `q`. */
    method ReadNext(i: nat, last: NetResult, packet: Packet, ghost before: IceController, ghost q: seq<Request>)
      returns (r: NetResult, failed: bool)
      requires Valid() && !fault && i < ice.count && ice.sockets[i].state != InProgress
      requires q <= queue && ice.RanFrom(before)
      modifies this`sessionState, this`queue, this`ice, this`owed, this`log, this`fault, this`capped,
               dtls, video, audio
      ensures Valid() && q <= queue && ice.RanFrom(before) && ice.RanFrom(old(ice))
      ensures failed <==> old(ice.sockets)[i].fd == -1 || packet.ReadError?
      ensures failed || Quiet(packet) ==> View() == old(View()) && dtls.state == old(dtls.state)
      ensures Quiet(packet) && !failed ==> r == Ok
      ensures last == Ok && Acts(old(ice), old(dtls.state), i, packet) ==> Acted(i, packet)
    {
      ghost var read := ice;
      r, failed := ReadOne(i, last, packet);
      RanOn(before, read, ice);
    }

    /** One read from slot `i`, which fails on a closed descriptor. */
    method ReadOne(i: nat, last: NetResult, packet: Packet) returns (r: NetResult, failed: bool)
      requires Valid() && !fault && i < ice.count && ice.sockets[i].state != InProgress
      modifies this`sessionState, this`queue, this`ice, this`owed, this`log, this`fault, this`capped,
               dtls, video, audio
      ensures Valid() && old(queue) <= queue && ice.RanFrom(old(ice))
      ensures failed <==> old(ice.sockets)[i].fd == -1 || packet.ReadError?
      ensures failed ==> View() == old(View()) && dtls.state == old(dtls.state)
      ensures last == Ok && Acts(old(ice), old(dtls.state), i, packet) ==> Acted(i, packet)
      ensures Quiet(packet) ==> View() == old(View()) && dtls.state == old(dtls.state) && (!failed ==> r == Ok)
    {
      failed := ice.sockets[i].fd == -1 || packet.ReadError?;
      r := last;
      if !failed {
        r := HandlePacket(i, r, packet);
      }
    }

    /** One poll of the listener thread over the descriptors it saw open when it started. */
    method PollSockets(polls: seq<Poll>)
      requires Valid() && !fault && ice.polling
      modifies this`sessionState, this`queue, this`ice, this`owed, this`log, this`fault, this`capped,
               dtls, video, audio
      ensures Valid() && old(queue) <= queue && ice.RanFrom(old(ice))
      ensures ActingPass(old(ice), old(dtls.state), polls) ==>
                var n := |polls| - 1; Acted(n, polls[n].packets[|polls[n].packets| - 1])
      ensures (forall k :: 0 <= k < |polls| ==> QuietPoll(polls[k])) ==>
                View() == old(View()) && dtls.state == old(dtls.state)
    {
      ghost var before, q, acting, n := ice, queue, ActingPass(ice, dtls.state, polls), |polls| - 1;
      ghost var view, state, quiet := View(), dtls.state, forall k :: 0 <= k < |polls| ==> QuietPoll(polls[k]);
      var seen := ice.sockets[..ice.count];
      ghost var last := if acting then polls[n].packets[|polls[n].packets| - 1] else ReadError;
      ghost var done := false;
      for i := 0 to |seen|
        invariant Valid() && q <= queue && ice.RanFrom(before)
        invariant quiet || (acting && i <= n) ==> View() == view && dtls.state == state
        invariant acting ==> (done <==> i > n)
        invariant acting && done ==> Acted(n, last)
      {
        ghost var idle := i >= |polls| || QuietPoll(polls[i]);
        assert quiet || (acting && i != n) ==> idle;
        PollNext(i, seen[i], polls, before, q);
        done := done || i == n;
      }
    }

    /** `PollSeen` since the controller was `before` and the queue `q`. */
    method PollNext(i: nat, seen: Socket, polls: seq<Poll>, ghost before: IceController, ghost q: seq<Request>)
      requires Valid() && i < ice.count && q <= queue && ice.RanFrom(before)
      modifies this`sessionState, this`queue, this`ice, this`owed, this`log, this`fault, this`capped,
               dtls, video, audio
      ensures Valid() && q <= queue && ice.RanFrom(before)
      ensures i >= |polls| || QuietPoll(polls[i]) ==> View() == old(View()) && dtls.state == old(dtls.state)
      ensures i < |polls| && polls[i].Readable? && seen.fd >= 0 && !old(fault)
              && old(ice.sockets)[i].state != InProgress
              && ActingRead(old(ice), old(dtls.state), i, polls[i].packets) ==>
                Acted(i, polls[i].packets[|polls[i].packets| - 1])
    {
      ghost var polled := ice;
      PollSeen(i, seen, polls);
      RanOn(before, polled, ice);
    }

    /** Polls slot `i`, which the listener saw as `seen`. */
    method PollSeen(i: nat, seen: Socket, polls: seq<Poll>)
      requires Valid() && i < ice.count
      modifies this`sessionState, this`queue, this`ice, this`owed, this`log, this`fault, this`capped,
               dtls, video, audio
      ensures Valid() && old(queue) <= queue && ice.RanFrom(old(ice))
      ensures i >= |polls| || QuietPoll(polls[i]) ==> View() == old(View()) && dtls.state == old(dtls.state)
      ensures i < |polls| && polls[i].Readable? && seen.fd >= 0 && !old(fault)
              && old(ice.sockets)[i].state != InProgress
              && ActingRead(old(ice), old(dtls.state), i, polls[i].packets) ==>
                Acted(i, polls[i].packets[|polls[i].packets| - 1])
    {
      if seen.fd >= 0 && i < |polls| && polls[i].Readable? && !fault {
        PollSlot(i, polls[i]);
      }
    }

    /** After quiet polls comes the last, which finds an acting packet. */
    static predicate ActingPass(c: IceController, state: DtlsTransport.DtlsState, polls: seq<Poll>) {
      var n := |polls| - 1;
      && 0 <= n < c.count <= |c.sockets| && (forall k :: 0 <= k < n ==> QuietPoll(polls[k]))
      && c.sockets[n].fd >= 0 && c.sockets[n].state != InProgress
      && polls[n].Readable? && ActingRead(c, state, n, polls[n].packets)
    }

    method PollSlot(i: nat, poll: Poll)
      requires Valid() && !fault && i < ice.count && poll.Readable?
      modifies this`sessionState, this`queue, this`ice, this`owed, this`log, this`fault, this`capped,
               dtls, video, audio
      ensures Valid() && old(queue) <= queue && ice.RanFrom(old(ice))
      ensures old(ice.sockets)[i].state != InProgress && ActingRead(old(ice), old(dtls.state), i, poll.packets) ==>
                Acted(i, poll.packets[|poll.packets| - 1])
      ensures old(ice.sockets[i].state) == InProgress ==>
                ice.sockets[i].state == TlsState(poll.tls) && ice.sockets == old(ice.sockets)[i := ice.sockets[i]]
      ensures QuietPoll(poll) ==> View() == old(View()) && dtls.state == old(dtls.state)
    {
      if ice.sockets[i].state == InProgress {
        ExecuteTlsHandshake(i, poll.tls);
      } else {
        HandleRxPacket(i, poll.packets);
      }
    }

    // ------------------------------------------------------------------ requests

    /** One connectivity round: gather candidates once, send the pairs' and the candidates' requests,
        and re-arm the timer whether or not the round has timed out. */
    method ProcessIceCandidatesAndPairs(round: Round)
      requires Safe(View()) && drained
      modifies this`ice, this`queue
      ensures Safe(View()) && old(queue) <= queue
      ensures ice.timerArmed && ice.timerIntervalMs == if round.timedOut then CLOSING_MS else CONNECTIVITY_MS
      ensures !ice.addLocalCandidates
      ensures ice.state == old(ice.state) && ice.nominated == old(ice.nominated) && ice.polling == old(ice.polling)
      ensures var gathered := if old(ice.addLocalCandidates) then GatheredAll(old(ice), round.gathered) else old(ice);
              ice.count == gathered.count && Stepped(gathered.sockets, ice.sockets, round.sends, round.slots)
      ensures round.timedOut ==> CloseConnection in queue || |queue| == MAX_QUEUED
      ensures round.sends == [] && round.slots == [] ==>
                && queue == (if round.timedOut then Queued(old(queue), CloseConnection) else old(queue))
                && SameSockets(ice, if old(ice.addLocalCandidates)
                                    then GatheredAll(old(ice), round.gathered) else old(ice))
    {
      GatherOnce(round.gathered);
      ghost var gathered := ice.sockets;
      SendMany(round.sends);
      ghost var sent := ice.sockets;
      ProcessLocalCandidates(round.slots);
      SentAndPassed(gathered, sent, ice.sockets, round.sends, round.slots);
      if round.timedOut {
        Enqueue(CloseConnection);
      }
      Rearm(if round.timedOut then CLOSING_MS else CONNECTIVITY_MS);
    }

    method GatherOnce(gathered: seq<Gathering>)
      requires Safe(View())
      modifies this`ice
      ensures Safe(View()) && ice.count >= old(ice.count)
      ensures ice == old(ice).(
                addLocalCandidates := false, count := ice.count, sockets := ice.sockets, open := ice.open)
      ensures SameSockets(ice, if old(ice.addLocalCandidates) then GatheredAll(old(ice), gathered) else old(ice))
    {
      if ice.addLocalCandidates {
        GatheredAllTable(ice, gathered);
        AddLocalCandidates(gathered);
        ice := ice.(addLocalCandidates := false);
      }
    }

    /** `UpdateTimerInterval` between two handlers' steps. */
    method Rearm(ms: nat)
      requires Safe(View())
      modifies this`ice
      ensures Safe(View()) && ice == old(ice).(timerArmed := true, timerIntervalMs := ms)
    {
      UpdateTimerInterval(ms);
    }

    /** `SendEvent` between two handlers' steps. */
    method Enqueue(r: Request)
      requires Safe(View())
      modifies this`queue
      ensures Safe(View()) && queue == Queued(old(queue), r)
    {
      ghost var q := queue;
      var _ := SendEvent(r);
      if !drained {
        HeartbeatGrows(ice.state, ice.timerArmed, q, ice.IsNominated(), owed, ice.timerArmed, queue);
      }
    }

    /** Checks the nominated pair and re-arms the timer; fails only without a nomination. */
    method PeriodConnectionCheck(binding: Option<SendAnswer>, slots: seq<SlotAnswer>) returns (ok: bool)
      requires Safe(View()) && drained
      modifies this`ice, this`queue
      ensures Safe(View()) && old(queue) <= queue && ice.RanFrom(old(ice))
      ensures ice.state == old(ice.state) && ice.nominated == old(ice.nominated)
      ensures ok <==> old(ice.nominated).Some?
      ensures old(ice.state) == IceReady ==> ok
      ensures ok ==> ice.timerArmed && ice.timerIntervalMs == PERIODIC_MS
      ensures !ok ==> ice == old(ice) && queue == old(queue)
      ensures ok ==> Stepped(old(ice.sockets), ice.sockets, Binding(old(ice), binding), slots)
    {
      if ice.nominated.None? || ice.sockets[ice.nominated.value].local.None? {
        return false;
      }
      ghost var before := ice;
      if binding.Some? {
        SendOne(ice.nominated.value, binding.value);
      }
      ghost var sent := ice.sockets;
      assert Sent(before.sockets, sent, Binding(before, binding));
      ProcessLocalCandidates(slots);
      SentAndPassed(before.sockets, sent, ice.sockets, Binding(before, binding), slots);
      Rearm(PERIODIC_MS);
      return true;
    }

    /** Waits for the last contexts to close: re-arms the timer while one is alive, and otherwise
        enters CLOSED, with no descriptor left. */
    method AddressClosing(active: bool, slots: seq<SlotAnswer>)
      requires Safe(View()) && drained && |queue| < MAX_QUEUED
      modifies this`ice, this`queue, this`owed
      ensures Safe(View()) && old(queue) <= queue && ice.RanFrom(old(ice))
      ensures ice.nominated == old(ice.nominated)
      ensures old(ice).AnySocketAlive() ==>
                ice.state == old(ice.state) && ice.timerArmed && ice.timerIntervalMs == CLOSING_MS && owed == old(owed)
      ensures old(ice).AnySocketAlive() ==> Passed(old(ice.sockets), ice.sockets, slots)
      ensures !old(ice).AnySocketAlive() ==>
                && ice == old(ice).(state := IceClosed, polling := false)
                && ice.open == map[] && queue == old(queue) + [RequestIceClosed] && owed == active
      ensures ice.timerArmed || RequestIceClosed in queue
    {
      var alive := AnyAlive();
      if alive {
        ProcessLocalCandidates(slots);
        Rearm(CLOSING_MS);
      } else {
        UnusedHoldsNothing(ice.sockets, ice.count, ice.open);
        EnterClosed(active);
      }
    }

    method AnyAlive() returns (alive: bool)
      requires ice.Table()
      ensures alive <==> ice.AnySocketAlive()
    {
      alive := false;
      for i := 0 to ice.count
        invariant alive ==> ice.AnySocketAlive()
        invariant !alive ==> forall k :: 0 <= k < i ==> ice.sockets[k].state == Unused
      {
        alive := alive || ice.sockets[i].state != Unused;
      }
    }

    /** Resets the session for its next user. */
    method OnClosePeerConnection()
      requires Valid()
      modifies this`sessionState, this`transceivers, this`log
      ensures Valid() && sessionState == Inited && transceivers == []
      ensures log == old(log) + Leaving(old(Ready())) + [TransceiversCleared]
    {
      var silent := Leaving(Ready());
      AppendSilent(log, ice.IsNominated(), Ready(), transceivers == [], fault);
      AppendOther(log + silent, ice.IsNominated(), false, transceivers == [], fault, TransceiversCleared);
      transceivers, sessionState := [], Inited;
      log := log + silent + [TransceiversCleared];
    }

    /** Takes the first request; the heartbeat then rests on the handler that is running. */
    method TakeRequest() returns (request: Request)
      requires Safe(View()) && queue != []
      modifies this`queue, this`drained
      ensures Safe(View()) && drained && request == old(queue)[0] && queue == old(queue)[1..]
    {
      drained := true;
      request := queue[0];
      queue := queue[1..];
    }

    /** The handler is done, and the heartbeat stands on its own again. */
    method Resume(was: bool)
      requires Safe(View())
      requires !was ==> HeartbeatValid(ice.state, ice.timerArmed, queue, ice.IsNominated(), owed)
      modifies this`drained
      ensures Safe(View()) && drained == was
    {
      drained := was;
    }

    /** Handles a request that re-arms the timer or closes the controller. */
    method HandleRearming(service: Service)
      requires Safe(View()) && queue != [] && Rearming(queue[0], ice.IsNominated())
      modifies this`queue, this`ice, this`owed, this`drained
      ensures Safe(View()) && drained == old(drained) && old(queue)[1..] <= queue
      ensures ice.nominated == old(ice.nominated) && ice.ClosedCleanly(old(ice))
      ensures ice.timerArmed || (old(queue)[0] == RequestIceClosing && ice.state == IceClosed && ice.open == map[])
      ensures RoundServed(old(View()), View(), service.round) && CheckServed(old(View()), View(), service)
      ensures WaitServed(old(View()), View(), service)
    {
      if queue[0] == ProcessIce {
        HandleRound(service.round);
      } else if queue[0] == PeriodCheck {
        HandleCheck(service);
      } else {
        HandleWait(service);
      }
    }

    method HandleRound(round: Round)
      requires Safe(View()) && queue != [] && queue[0] == ProcessIce
      modifies this`queue, this`ice, this`owed, this`drained
      ensures Safe(View()) && drained == old(drained) && old(queue)[1..] <= queue
      ensures ice.nominated == old(ice.nominated) && ice.ClosedCleanly(old(ice))
      ensures ice.timerArmed && RoundServed(old(View()), View(), round)
    {
      var was := drained;
      var _ := TakeRequest();
      ProcessIceCandidatesAndPairs(round);
      Resume(was);
    }

    method HandleCheck(service: Service)
      requires Safe(View()) && queue != [] && queue[0] == PeriodCheck && ice.IsNominated()
      modifies this`queue, this`ice, this`owed, this`drained
      ensures Safe(View()) && drained == old(drained) && old(queue)[1..] <= queue
      ensures ice.nominated == old(ice.nominated) && ice.ClosedCleanly(old(ice))
      ensures ice.timerArmed && CheckServed(old(View()), View(), service)
    {
      var was := drained;
      var _ := TakeRequest();
      var _ := PeriodConnectionCheck(service.binding, service.slots);
      Resume(was);
    }

    method HandleWait(service: Service)
      requires Safe(View()) && queue != [] && queue[0] == RequestIceClosing
      modifies this`queue, this`ice, this`owed, this`drained
      ensures Safe(View()) && drained == old(drained) && old(queue)[1..] <= queue
      ensures ice.nominated == old(ice.nominated) && ice.ClosedCleanly(old(ice))
      ensures ice.timerArmed || (ice.state == IceClosed && ice.open == map[])
      ensures WaitServed(old(View()), View(), service)
    {
      var was, active := drained, Active(ice.state) || owed;
      var _ := TakeRequest();
      AddressClosing(active, service.slots);
      Resume(was);
    }

    /** `HandleRearming` as a step of the session. */
    method ServeRearming(service: Service)
      requires Valid() && queue != [] && Rearming(queue[0], ice.IsNominated())
      modifies this`queue, this`ice, this`owed, this`drained
      ensures Valid() && drained == old(drained) && ice.ClosedCleanly(old(ice))
      ensures RoundServed(old(View()), View(), service.round) && CheckServed(old(View()), View(), service)
      ensures WaitServed(old(View()), View(), service)
    {
      HandleRearming(service);
    }

    /** Takes a request that re-arms nothing: what the heartbeat rests on stays queued. */
    method TakeOther() returns (request: Request)
      requires Safe(View()) && queue != [] && !Rearming(queue[0], ice.IsNominated())
      modifies this`queue, this`owed
      ensures Safe(View()) && request == old(queue)[0] && queue == old(queue)[1..]
      ensures owed == (old(owed) && request != RequestIceClosed)
    {
      request := queue[0];
      if !drained {
        HeartbeatAfterTake(ice.state, ice.timerArmed, queue, ice.IsNominated(), owed);
      }
      owed := owed && request != RequestIceClosed;
      queue := queue[1..];
    }

    /** Handles a request that does not re-arm the timer; true when the session loop ends. */
    method HandleOther(report: seq<SendAnswer>) returns (closed: bool)
      requires Valid() && queue != [] && !Rearming(queue[0], ice.IsNominated())
      modifies this`sessionState, this`transceivers, this`queue, this`ice, this`owed, this`log,
               video, audio
      ensures Valid() && ice.RanFrom(old(ice))
      ensures closed <==> old(queue)[0] == RequestIceClosed
      ensures ClosingServed(old(View()), View()) && OtherServed(old(View()), View(), report)
    {
      closed := queue[0] == RequestIceClosed;
      if queue[0] in {CloseConnection, CloseNoIceFlow, RequestIceClosed} {
        HandleClosing();
      } else {
        HandleLight(report);
      }
    }

    /** A request that closes or resets the session. */
    method HandleClosing()
      requires Valid() && queue != [] && queue[0] in {CloseConnection, CloseNoIceFlow, RequestIceClosed}
      modifies this`sessionState, this`transceivers, this`queue, this`ice, this`owed, this`log, video, audio
      ensures Valid() && ice.RanFrom(old(ice)) && ClosingServed(old(View()), View())
      ensures old(queue)[0] == RequestIceClosed ==> log == old(log) + Leaving(old(Ready())) + [TransceiversCleared]
    {
      var request := NextOther();
      ServeClosing(request);
    }

    /** A request that leaves the session's state alone. */
    method HandleLight(report: seq<SendAnswer>)
      requires Valid() && queue != [] && !Rearming(queue[0], ice.IsNominated())
      requires queue[0] in {AddRemoteCandidate, RtcpReport, PeriodCheck}
      modifies this`queue, this`ice, this`owed
      ensures Valid() && ice.RanFrom(old(ice)) && OtherServed(old(View()), View(), report)
    {
      var request := NextOther();
      if request == RtcpReport {
        SendReport(report);
      }
    }

    /** `TakeOther` as a step of the session. */
    method NextOther() returns (request: Request)
      requires Valid() && queue != [] && !Rearming(queue[0], ice.IsNominated())
      modifies this`queue, this`owed
      ensures Valid() && request == old(queue)[0] && queue == old(queue)[1..]
      ensures owed == (old(owed) && request != RequestIceClosed)
    {
      request := TakeOther();
    }

    method SendReport(report: seq<SendAnswer>)
      requires Valid()
      modifies this`ice, this`queue
      ensures Valid() && ice.RanFrom(old(ice))
      ensures SentToPeer(old(ice), old(queue), ice, queue, report)
    {
      ForeignSends(report);
    }

    /** Closes the session, resets it for its next user, or both. */
    method ServeClosing(request: Request)
      requires Valid() && request in {CloseConnection, CloseNoIceFlow, RequestIceClosed}
      modifies this`sessionState, this`transceivers, this`queue, this`ice, this`owed, this`log, video, audio
      ensures Valid() && ice.RanFrom(old(ice))
      ensures request == CloseConnection ==> sessionState == SessionClosing && transceivers == old(transceivers)
      ensures request != RequestIceClosed && Destroyable(old(ice.state)) && !AnyLingers(old(ice.sockets)) ==>
                ice.state == IceClosed && queue == Queued(old(queue), RequestIceClosed)
      ensures request != CloseConnection ==> sessionState == Inited && transceivers == []
      ensures request == RequestIceClosed ==>
                && ice == old(ice) && queue == old(queue) && owed == old(owed)
                && log == old(log) + Leaving(old(Ready())) + [TransceiversCleared]
    {
      if request != RequestIceClosed {
        CloseSession();
      }
      if request != CloseConnection {
        OnClosePeerConnection();
      }
    }

    /** Serves the first request. */
    method ServeFirst(service: Service) returns (closed: bool)
      requires Valid() && queue != []
      modifies this`sessionState, this`transceivers, this`queue, this`ice, this`owed, this`drained, this`log,
               video, audio
      ensures Valid() && drained == old(drained) && ice.ClosedCleanly(old(ice))
      ensures closed <==> old(queue)[0] == RequestIceClosed
      ensures Served(old(View()), View(), service)
    {
      if Rearming(queue[0], ice.IsNominated()) {
        closed := false;
        ServeRearming(service);
      } else {
        closed := HandleOther(service.report);
      }
    }

    /** Handles the first request. A connection check retries a handshake that is under way. */
    method HandleFirst(service: Service) returns (closed: bool)
      requires Valid() && !fault && queue != []
      modifies this`sessionState, this`transceivers, this`queue, this`ice, this`owed, this`drained, this`log,
               this`fault, this`capped, dtls, video, audio
      ensures Valid() && drained == old(drained) && ice.ClosedCleanly(old(ice))
      ensures closed <==> old(queue)[0] == RequestIceClosed
      ensures !Retries(old(View())) ==> Served(old(View()), View(), service) && !fault && dtls.state == old(dtls.state)
      ensures Retries(old(View())) ==>
                ice.nominated == old(ice.nominated) && Retried(old(dtls.state), service.handshake)
    {
      var check := queue[0] == PeriodCheck;
      closed := ServeFirst(service);
      if check && sessionState == P2PFound {
        ExecuteDtlsHandshake(service.handshake);
      }
    }

    /** What a call of the handshake leads to in P2P_FOUND. */
    ghost predicate Retried(state: DtlsTransport.DtlsState, call: HandshakeCall)
      reads this
    {
      && (Ends(state, call) && call.completion.inOrder && !call.timedOut ==> Finished())
      && (Ends(state, call) && !call.completion.inOrder ==> sessionState == SessionClosing)
      && (Waits(state, call) ==> sessionState == if call.timedOut then SessionClosing else P2PFound)
    }

    /** The session thread: one request, then the inactivity check. */
    method HandleRequest(service: Service)
      requires Valid() && !fault
      modifies this`sessionState, this`transceivers, this`queue, this`ice, this`owed, this`drained, this`log,
               this`fault, this`capped, dtls, video, audio
      ensures Valid() && drained == old(drained) && ice.ClosedCleanly(old(ice))
      ensures Leads(SessionRequest(service), old(View()), View())
      ensures !service.inactive && !Retries(old(View())) ==> dtls.state == old(dtls.state)
      ensures !service.inactive && Retries(old(View())) ==> Retried(old(dtls.state), service.handshake)
    {
      var closed := false;
      if queue != [] {
        closed := HandleFirst(service);
      }
      if !fault && !closed && service.inactive && Ready() {
        CloseSession();
      }
    }

    // ------------------------------------------------------------------ starting

    /** Force-closes whatever an earlier round left open. */
    method CloseAllContexts()
      requires ice.Table()
      modifies this`ice
      ensures ice.Table() && ice == old(ice).(sockets := ice.sockets, open := map[])
      ensures forall k :: 0 <= k < MAX_SOCKETS ==> ice.sockets[k] == FreedSlot(old(ice.sockets)[k], false)
    {
      ghost var before := ice;
      for i := 0 to MAX_SOCKETS
        invariant ice == FreedBut(before, {}, i)
      {
        FreedButAt(before, {}, i, i);
        assert SlotValid(before.sockets[i], i, before.count, before.open);
        assert before.sockets[i].fd >= -1;
        ForceClose(i);
      }
      AllFreed(before, ice);
    }

    method ForceClose(i: nat)
      requires i < |ice.sockets| && ice.sockets[i].fd >= -1
      modifies this`ice
      ensures ice == Freed(old(ice), i)
    {
      if ice.sockets[i].fd >= 0 {
        FreeSocketContext(i);
      }
    }

    /** An empty table, no nomination, ready to gather. */
    method ResetController()
      requires ice.Table()
      modifies this`ice
      ensures ice.Valid() && !AnyLingers(ice.sockets)
      ensures ice == old(ice).(sockets := ice.sockets, open := map[], count := 0, nominated := None,
                               state := IceProcess, addLocalCandidates := true, polling := true)
    {
      CloseAllContexts();
      EmptyTable(ice.sockets, ice.count);
      ice := ice.(count := 0, nominated := None, state := IceProcess, addLocalCandidates := true, polling := true);
    }

    /** A new round is on record; its heartbeat rests on the caller. */
    method BeginRound()
      requires Valid()
      modifies this`ice, this`owed, this`drained, this`log
      ensures Valid() && Started(ice) && !owed && drained && log == old(log) + [IceStarted]
    {
      AppendOther(log, ice.IsNominated(), Ready(), transceivers == [], fault, IceStarted);
      ResetController();
      owed, drained := false, true;
      log := log + [IceStarted];
    }

    /** Starts a round: an empty table, no nomination, and the heartbeat running. */
    method IceStart()
      requires Valid()
      modifies this`queue, this`ice, this`owed, this`drained, this`log
      ensures Valid() && Started(ice) && !owed && !drained
      ensures log == old(log) + [IceStarted] && queue == Queued(old(queue), ProcessIce)
    {
      BeginRound();
      OnTimerExpire();
      drained := false;
    }

    /** Empties the queue. The heartbeat survives exactly when the timer is armed. */
    method EmptyMessageQueue()
      requires Safe(View())
      modifies this`queue, this`drained
      ensures Safe(View()) && queue == [] && drained == (old(drained) || !ice.timerArmed)
      ensures Beating(ice.timerArmed, queue, ice.IsNominated()) <==> ice.timerArmed
    {
      drained := drained || !ice.timerArmed;
      queue := [];
    }

    /** Refused exactly when both slots are taken. */
    method AddTransceiver(t: Track) returns (ok: bool)
      modifies this`transceivers
      ensures ok <==> |old(transceivers)| < |BOTH_TRACKS|
      ensures transceivers == if ok then old(transceivers) + [t] else old(transceivers)
    {
      ok := |transceivers| < |BOTH_TRACKS|;
      if ok {
        transceivers := transceivers + [t];
      }
    }

    /** Starts an idle session: both transceivers find a place, and the queue is emptied. */
    method StartPeerConnectionSession()
      requires Valid() && sessionState == Inited
      modifies this`sessionState, this`transceivers, this`queue, this`drained, this`log
      ensures Valid() && queue == [] && sessionState == Start && transceivers == BOTH_TRACKS
      ensures log == old(log) + [SessionStarted] && drained == (old(drained) || !ice.timerArmed)
    {
      ClearQueue();
      EnterStart();
    }

    /** `EmptyMessageQueue` as a step of the session. */
    method ClearQueue()
      requires Valid()
      modifies this`queue, this`drained
      ensures Valid() && queue == [] && drained == (old(drained) || !ice.timerArmed)
    {
      EmptyMessageQueue();
    }

    /** An idle session gets its transceivers and is in START. */
    method EnterStart()
      requires Valid() && sessionState == Inited
      modifies this`sessionState, this`transceivers, this`log
      ensures Valid() && sessionState == Start && transceivers == BOTH_TRACKS
      ensures log == old(log) + [SessionStarted]
    {
      AppendOther(log, ice.IsNominated(), false, true, fault, SessionStarted);
      AddTransceivers();
      sessionState := Start;
      log := log + [SessionStarted];
    }

    /** Both tracks find a place. */
    method AddTransceivers()
      requires transceivers == []
      modifies this`transceivers
      ensures transceivers == BOTH_TRACKS
    {
      var video := AddTransceiver(Video);
      var audio := AddTransceiver(Audio);
      assert video && audio;
    }

    /** A remote description: a DTLS context, a started controller, and the candidates it lists. Each
        stage may be refused, and then what came before it stays. */
    method SetRemoteDescription(d: Description) returns (ok: bool)
      requires Valid()
      modifies this`sessionState, this`queue, this`ice, this`owed, this`drained, this`log, dtls
      ensures Valid()
      ensures ok <==> d.Starts() && d.rtpReady && d.signalled
      ensures d.Starts() ==> Started(ice) && !drained && dtls.state == DtlsTransport.DtlsHandshaking
      ensures !d.Starts() ==> ice == old(ice) && queue == old(queue)
      ensures sessionState == if d.Starts() && d.rtpReady then FindConnection else old(sessionState)
      ensures log == if !d.Starts() then old(log)
                     else if !d.rtpReady then old(log) + [IceStarted]
                     else old(log) + [IceStarted] + Leaving(old(Ready()))
      ensures ok ==> queue == Listed(Queued(old(queue), ProcessIce), d.listed)
    {
      if !d.parsed {
        return false;
      }
      var status := dtls.Init(d.dtls);
      if status != DtlsTransport.Success || !d.iceStarted {
        return false;
      }
      IceStart();
      if !d.rtpReady {
        return false;
      }
      FindPeer(d);
      return d.signalled;
    }

    /** The session looks for a connection, if the session thread can be woken. */
    method FindPeer(d: Description)
      requires Valid()
      modifies this`sessionState, this`queue, this`log
      ensures Valid() && sessionState == FindConnection && log == old(log) + Leaving(old(Ready()))
      ensures queue == if d.signalled then Listed(old(queue), d.listed) else old(queue)
    {
      MoveTo(FindConnection);
      if d.signalled {
        EnqueueListedCandidates(d.listed);
      }
    }

    /** The candidates that the description lists. */
    method EnqueueListedCandidates(n: nat)
      requires Safe(View())
      modifies this`queue
      ensures Safe(View()) && queue == Listed(old(queue), n)
    {
      for k := 0 to n
        invariant Safe(View()) && queue == Listed(old(queue), k)
      {
        Enqueue(AddRemoteCandidate);
      }
    }

    /** No session description came in time. */
    method OnCloseSessionTimerExpire()
      requires Safe(View())
      modifies this`queue, this`drained
      ensures Safe(View())
      ensures sessionState == Start ==> queue == [CloseNoIceFlow]
      ensures sessionState != Start ==> View() == old(View())
    {
      if sessionState == Start {
        EmptyMessageQueue();
        Enqueue(CloseNoIceFlow);
      }
    }

    method FireTimer()
      requires Safe(View())
      modifies this`queue, this`ice
      ensures Safe(View())
      ensures ice == old(ice).(timerArmed := ice.timerArmed, timerIntervalMs := ice.timerIntervalMs)
      ensures Leads(TimerFires, old(View()), View()) || fault
      ensures old(ice.timerArmed) ==> HeartbeatValid(ice.state, ice.timerArmed, queue, ice.IsNominated(), owed)
    {
      if ice.timerArmed {
        ice := ice.(timerArmed := false);
        OnTimerExpire();
      }
    }

    /** One handler. Nothing runs after a fault; the listener runs only while polling is on; a signalling
        message starts only an idle session. */
    method DoStep(step: Step)
      requires Valid()
      modifies this`sessionState, this`transceivers, this`queue, this`ice, this`owed, this`drained, this`log,
               this`fault, this`capped, dtls, video, audio
      ensures Valid() && ice.ClosedCleanly(old(ice)) && (old(fault) ==> fault)
      ensures others == old(others) && surplus == old(surplus)
      ensures Links(Follows, step, old(View()), View())
      ensures step.ListenerPass? && !old(fault) && old(ice).polling
              && ActingPass(old(ice), old(dtls.state), step.polls) ==>
                var n := |step.polls| - 1; Acted(n, step.polls[n].packets[|step.polls[n].packets| - 1])
    {
      if fault {
        return;
      }
      match step {
        case SessionRequest(service) => HandleRequest(service);
        case ListenerPass(polls) => Listen(polls);
        case Signalled => Signal();
        case RemoteDescription(d) => Describe(d);
        case _ => DoQueueStep(step);
      }
    }

    /** The listener runs only while polling is on. */
    method Listen(polls: seq<Poll>)
      requires Valid() && !fault
      modifies this`sessionState, this`queue, this`ice, this`owed, this`log, this`fault, this`capped,
               dtls, video, audio
      ensures Valid() && ice.ClosedCleanly(old(ice)) && Leads(ListenerPass(polls), old(View()), View())
      ensures old(ice).polling && ActingPass(old(ice), old(dtls.state), polls) ==>
                var n := |polls| - 1; Acted(n, polls[n].packets[|polls[n].packets| - 1])
    {
      if ice.polling {
        PollSockets(polls);
      }
    }

    /** A signalling message starts only an idle session. */
    method Signal()
      requires Valid() && !fault
      modifies this`sessionState, this`transceivers, this`queue, this`drained, this`log
      ensures Valid() && Leads(Signalled, old(View()), View())
    {
      if sessionState == Inited {
        StartPeerConnectionSession();
      }
    }

    method Describe(d: Description)
      requires Valid() && !fault
      modifies this`sessionState, this`queue, this`ice, this`owed, this`drained, this`log, dtls
      ensures Valid() && ice.ClosedCleanly(old(ice)) && Leads(RemoteDescription(d), old(View()), View())
    {
      var _ := SetRemoteDescription(d);
    }

    /** The handlers that touch only the controller and the queue. */
    method DoQueueStep(step: Step)
      requires Valid() && !fault
      requires step in {TimerFires, RemoteCandidate, RtcpTimer, CloseSessionTimer} || step.SendFrame?
      modifies this`queue, this`ice, this`drained
      ensures Valid() && ice.state == old(ice.state) && Links(Follows, step, old(View()), View())
    {
      match step {
        case TimerFires => Expire();
        case RemoteCandidate => Request(AddRemoteCandidate, step);
        case RtcpTimer => Request(RtcpReport, step);
        case SendFrame(answer) => SendMedia(answer);
        case CloseSessionTimer => GiveUp();
      }
    }

    method Expire()
      requires Valid() && !fault
      modifies this`queue, this`ice
      ensures Valid() && ice.state == old(ice.state) && Leads(TimerFires, old(View()), View())
    {
      FireTimer();
    }

    method Request(r: Request, step: Step)
      requires Valid() && !fault
      requires (r == AddRemoteCandidate && step.RemoteCandidate?) || (r == RtcpReport && step.RtcpTimer?)
      modifies this`queue
      ensures Valid() && Leads(step, old(View()), View())
    {
      Enqueue(r);
    }

    method SendMedia(answer: SendAnswer)
      requires Valid() && !fault
      modifies this`queue, this`ice
      ensures Valid() && ice.state == old(ice.state) && Leads(SendFrame(answer), old(View()), View())
    {
      var _ := SendToRemotePeer(answer);
    }

    method GiveUp()
      requires Valid() && !fault
      modifies this`queue, this`drained
      ensures Valid() && Leads(CloseSessionTimer, old(View()), View())
    {
      OnCloseSessionTimerExpire();
    }
  }

  /** Every run of one session from its creation, whatever the foreign calls answer: after every
      handler the socket table, the nomination and the heartbeat are in order; a connection is
      reported at most once per start; CLOSED notices to a track are separated by READY ones; and a null
      transceiver is read exactly when a handshake completes on a session that was not started since its
      transceivers were last cleared. */
  method Run(schedule: seq<Step>, maxPeers: nat) returns (history: seq<Snapshot>, log: seq<Event>, fault: bool)
    requires maxPeers > 0
    ensures |history| == |schedule| + 1 && SafeRun(history) && Linked(Follows, schedule, history)
    ensures FoundOnce(log) && Alternates(log)
    ensures fault <==> StaleCompletion(log)
    ensures Standing(log) == Departures(log) + if history[|schedule|].sessionState == ConnectionReady then 1 else 0
  {
    var video := new MediaSource.Source(maxPeers);
    var audio := new MediaSource.Source(maxPeers);
    var session := new Session(video, audio, 0, 0);
    history := [session.View()];
    for n := 0 to |schedule|
      invariant session.Valid() && fresh(session) && fresh(session.dtls)
      invariant fresh(session.video) && fresh(session.audio)
      invariant |history| == n + 1 && history[n] == session.View()
      invariant SafeRun(history) && Linked(Follows, schedule, history)
    {
      session.DoStep(schedule[n]);
      SafeRunGrows(history, session.View());
      LinkedGrows(Follows, schedule, history, session.View());
      history := history + [session.View()];
    }
    log, fault := session.log, session.fault;
    BalanceMeans(log, |log|);
  }

  /** After every handler the socket table, the nomination and the heartbeat are in order, and CLOSED is
      entered only with every descriptor released. */
  ghost predicate SafeRun(history: seq<Snapshot>) {
    && (forall n :: 0 <= n < |history| ==> Safe(history[n]))
    && (forall n :: 0 < n < |history| ==> history[n].ice.ClosedCleanly(history[n - 1].ice))
  }

  lemma SafeRunGrows(history: seq<Snapshot>, next: Snapshot)
    requires history != [] && SafeRun(history)
    requires Safe(next) && next.ice.ClosedCleanly(history[|history| - 1].ice)
    ensures SafeRun(history + [next])
  {
  }

  // ------------------------------------------------------------------ closing a controller

  /** A controller that gathered no relay is closed at once, and every socket with it. */
  method GatherAndDestroy(session: Session, gathered: seq<Gathering>)
    requires session.Valid() && Destroyable(session.ice.state) && session.ice.addLocalCandidates
    requires !AnyLingers(session.ice.sockets) && forall k :: 0 <= k < |gathered| ==> gathered[k].kind != Relay
    modifies session
    ensures session.ice.state == IceClosed && session.ice.open == map[]
  {
    NoRelayNoneLingers(session.ice, gathered);
    session.GatherOnce(gathered);
    var _ := session.Destroy();
  }

  /** A controller that gathered a relay is not: it keeps the relay's socket and is woken again. */
  method GatherRelayAndDestroy(session: Session, relay: Gathering)
    requires session.Valid() && Destroyable(session.ice.state) && session.ice.addLocalCandidates
    requires relay.kind == Relay && Succeeds(session.ice, relay)
    modifies session
    ensures session.ice.state != IceClosed && session.ice.timerArmed
    ensures old(session.ice.count) < |session.ice.sockets|
    ensures session.ice.sockets[old(session.ice.count)].fd == relay.fd
  {
    ghost var n := session.ice.count;
    RelayLingers(session.ice, relay);
    AttemptLeaves(session.ice, relay);
    assert [relay][..0] == [] && GatheredAll(session.ice, []) == session.ice;
    session.GatherOnce([relay]);
    assert Lingers(session.ice.sockets[n]);
    var _ := session.Destroy();
  }

  /** Every controller that is closing with no context alive, and whose turn it is, is closed. */
  method ServeLast(session: Session, service: Service)
    requires session.Valid() && !session.fault && !session.ice.AnySocketAlive()
    requires session.queue == [RequestIceClosing] && !service.inactive
    modifies session, session.dtls, session.video, session.audio
    ensures session.ice.state == IceClosed && session.ice.open == map[] && session.queue == [RequestIceClosed]
  {
    session.HandleRequest(service);
  }

  /** A controller that waits for its contexts is closed by the first expiry that finds none alive, once the request
      that it queues is served. */
  method ExpiryCloses(session: Session, service: Service)
    requires session.Valid() && !session.fault && session.ice.state == IceClosing && session.ice.timerArmed
    requires !session.ice.AnySocketAlive() && session.queue == [] && !service.inactive
    modifies session, session.dtls, session.video, session.audio
    ensures session.ice.state == IceClosed && session.ice.open == map[] && session.queue == [RequestIceClosed]
  {
    session.Expire();
    ServeLast(session, service);
  }

  // ------------------------------------------------------------------ three schedules

  const WAITING_CALL := HandshakeCall([], DtlsTransport.HandshakeWantRead, Completion([], true), false)

  /** A round that sends nothing. */
  function QuietService(gathered: seq<Gathering>, timedOut: bool): Service {
    Service(Round(gathered, [], [], timedOut), None, [], WAITING_CALL, [], false)
  }

  const GOOD_DESCRIPTION := Description(true, DtlsTransport.SetUpDone, true, true, true, 0)

  const HOST_SOCKET := Gathering(Host, false, 3, true, true)

  /** The peer's binding request, which makes the pair known; the pair has not succeeded yet. */
  const BINDING_REQUEST := StunPacket(StunAnswer(SendResponse, false, Taken, Taken), true, WAITING_CALL)

  /** A DTLS record of that pair that completes the handshake. */
  const LAST_RECORD :=
    DtlsPacket(true, WAITING_CALL, DtlsRecord([], [DtlsTransport.WantRead], true, Completion([], true), []))

  /** The first round is due and a handshake is under way. */
  ghost predicate Underway(session: Session)
    reads session, session.video, session.audio, session.dtls
  {
    && session.Valid() && !session.fault && session.queue == [ProcessIce]
    && Started(session.ice) && session.dtls.state == DtlsTransport.DtlsHandshaking
  }

  /** A client starts a session. */
  method BeginClient(session: Session)
    requires session.Valid() && session.New()
    modifies session, session.dtls, session.video, session.audio
    ensures Underway(session) && session.transceivers == BOTH_TRACKS
  {
    session.StartPeerConnectionSession();
    var _ := session.SetRemoteDescription(GOOD_DESCRIPTION);
  }

  /** The session finds no connection in time, which it is asked to close for. */
  method TimeOut(session: Session)
    requires Underway(session)
    modifies session, session.dtls, session.video, session.audio
    ensures session.Valid() && !session.fault && session.queue == [CloseConnection]
    ensures session.ice.state == IceProcess && !AnyLingers(session.ice.sockets)
  {
    session.HandleRequest(QuietService([], true));
  }

  /** It closes; its CLOSED request is queued. */
  method CloseUnconnected(session: Session)
    requires Underway(session)
    modifies session, session.dtls, session.video, session.audio
    ensures session.Valid() && !session.fault && session.queue == [RequestIceClosed]
  {
    TimeOut(session);
    session.HandleRequest(QuietService([], false));
  }

  /** The client's next description arrives before that request is taken, which then clears the
      transceivers although a handshake is under way. */
  method DescribeAgain(session: Session)
    requires session.Valid() && !session.fault && session.queue == [RequestIceClosed]
    modifies session, session.dtls, session.video, session.audio
    ensures Underway(session) && session.transceivers == [] && session.sessionState == Inited
  {
    var _ := session.SetRemoteDescription(GOOD_DESCRIPTION);
    session.HandleRequest(QuietService([], false));
  }

  /** All this from the creation of the session. */
  method Redescribe(session: Session)
    requires session.Valid() && session.New()
    modifies session, session.dtls, session.video, session.audio
    ensures Underway(session) && session.transceivers == [] && session.sessionState == Inited
  {
    BeginClient(session);
    CloseUnconnected(session);
    DescribeAgain(session);
  }

  /** The session gathers a socket. */
  method GatherHost(session: Session)
    requires Underway(session)
    modifies session, session.dtls, session.video, session.audio
    ensures session.Valid() && !session.fault && session.ice.polling
    ensures session.transceivers == old(session.transceivers)
    ensures Session.ActingPass(session.ice, session.dtls.state, [Readable(TlsWaiting, [LAST_RECORD])])
  {
    GatheredHost(session.ice);
    session.HandleRequest(QuietService([HOST_SOCKET], false));
  }

  lemma GatheredHost(c: IceController)
    requires |c.sockets| == MAX_SOCKETS && c.count == 0 && c.open == map[]
    ensures var d := GatheredAll(c, [HOST_SOCKET]);
            d.count == 1 && d.sockets[0].fd == 3 && d.sockets[0].state == Gathered
  {
    assert [HOST_SOCKET][..0] == [];
    assert GatheredAll(c, []) == c;
  }

  /** The peer's binding request is answered. All else stays as it is, so the handshake can complete on the
      pair that is now known. */
  method AnswerPeer(session: Session)
    requires session.Valid() && !session.fault && session.ice.polling
    modifies session, session.dtls, session.video, session.audio
    ensures session.Valid() && !session.fault
    ensures session.View() == old(session.View()) && session.dtls.state == old(session.dtls.state)
  {
    session.PollSockets([Readable(TlsWaiting, [BINDING_REQUEST])]);
  }

  /** The connection is found and its handshake completes. */
  method Connect(session: Session)
    requires Underway(session)
    modifies session, session.dtls, session.video, session.audio
    ensures session.Valid() && session.Finished() && session.transceivers == old(session.transceivers)
  {
    GatherHost(session);
    AnswerPeer(session);
    session.PollSockets([Readable(TlsWaiting, [LAST_RECORD])]);
  }

  method CreateSession() returns (session: Session)
    ensures fresh(session) && fresh(session.dtls) && fresh(session.video) && fresh(session.audio)
    ensures session.Valid() && session.New() && session.video.maxPeers == 1 && session.others == 0
  {
    var video := new MediaSource.Source(1);
    var audio := new MediaSource.Source(1);
    session := new Session(video, audio, 0, 0);
  }

  /** A schedule of handlers, from the creation of a session, that reads a null transceiver: the
      handshake completes on the connection that the second description made. */
  method StaleClosedRequest() returns (log: seq<Event>, fault: bool)
    ensures fault && StaleCompletion(log)
  {
    var session := CreateSession();
    Redescribe(session);
    Connect(session);
    log, fault := session.log, session.fault;
  }

  /** A schedule after which both tracks count one session and none is ready: the session is described
      again while it is ready. */
  method SilentDeparture() returns (video: nat, audio: nat, state: SessionState, log: seq<Event>)
    ensures video == audio == 1 && state == FindConnection && Departures(log) >= 1
  {
    var session := CreateSession();
    BeginClient(session);
    Connect(session);
    var _ := session.SetRemoteDescription(GOOD_DESCRIPTION);
    video, audio := session.video.numReadyPeer, session.audio.numReadyPeer;
    state, log := session.sessionState, session.log;
  }

  /** A schedule that stops the heartbeat of a running controller: a session whose transceivers were cleared
      is started again after its timer has expired, which empties the queue. */
  method LostHeartbeat() returns (last: Snapshot)
    ensures Active(last.ice.state) && !Beating(last.ice.timerArmed, last.queue, last.ice.IsNominated())
  {
    var session := CreateSession();
    Redescribe(session);
    session.FireTimer();
    session.StartPeerConnectionSession();
    last := session.View();
  }
}
