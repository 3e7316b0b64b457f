/** The viewer sessions of one application: the table that gives a remote client its session, and the
    tracks that count the ready ones. */
module Viewers {
  import opened Basics
  import opened IceTypes
  import opened Answers
  import opened PeerSession
  import opened SessionLog
  import opened SessionSteps
  import opened Trace
  import MediaSource

  const REMOTE_ID_MAX: nat := 256

  /** How many sessions are in CONNECTION_READY. */
  function ReadyCount(shares: seq<Share>): nat {
    if shares == [] then 0 else ReadyCount(shares[1..]) + if shares[0].ready then 1 else 0
  }

  /** How often sessions left CONNECTION_READY silently. */
  function DepartureCount(shares: seq<Share>): nat {
    if shares == [] then 0 else DepartureCount(shares[1..]) + shares[0].departures
  }

  /** How many READY notices found the count at its maximum. */
  function CappedCount(shares: seq<Share>): nat {
    if shares == [] then 0 else CappedCount(shares[1..]) + shares[0].capped
  }

  /** The sessions other than the `i`-th that are ready, and their share in the difference. */
  function OthersReady(shares: seq<Share>, i: nat): int
    requires i < |shares|
  {
    ReadyCount(shares) - if shares[i].ready then 1 else 0
  }

  function OthersSurplus(shares: seq<Share>, i: nat): int
    requires i < |shares|
  {
    DepartureCount(shares) - shares[i].departures - CappedCount(shares) + shares[i].capped
  }

  lemma {:induction false} ReadyCountBound(shares: seq<Share>)
    ensures ReadyCount(shares) <= |shares|
  {
    if shares != [] {
      ReadyCountBound(shares[1..]);
    }
  }

  lemma {:induction false} OthersBound(shares: seq<Share>, i: nat)
    requires i < |shares|
    ensures 0 <= OthersReady(shares, i) < |shares|
  {
    if i == 0 {
      ReadyCountBound(shares[1..]);
    } else {
      OthersBound(shares[1..], i - 1);
    }
  }

  /** One session's share does not touch the others'. */
  lemma {:induction false} OthersKept(shares: seq<Share>, i: nat, share: Share)
    requires i < |shares|
    ensures OthersReady(shares[i := share], i) == OthersReady(shares, i)
    ensures OthersSurplus(shares[i := share], i) == OthersSurplus(shares, i)
  {
    if i == 0 {
      assert shares[i := share][1..] == shares[1..];
    } else {
      assert shares[i := share][1..] == shares[1..][i - 1 := share];
      OthersKept(shares[1..], i - 1, share);
    }
  }

  lemma {:induction false} NothingCounted(shares: seq<Share>)
    requires forall i :: 0 <= i < |shares| ==> shares[i] == NO_SHARE
    ensures ReadyCount(shares) == DepartureCount(shares) == CappedCount(shares) == 0
  {
    if shares != [] {
      NothingCounted(shares[1..]);
    }
  }

  const NO_SHARE := Share(false, 0, 0, false)

  /** Both tracks count the ready sessions and the silent departures less the capped notices, and never fewer
      than the ready sessions. */
  ghost predicate Balanced(video: nat, audio: nat, shares: seq<Share>) {
    && video == audio == ReadyCount(shares) + DepartureCount(shares) - CappedCount(shares)
    && ReadyCount(shares) <= video <= |shares|
  }

  /** How a session's log goes with its share: FOUND once per start, alternating notices, the departures that were
      logged, READY notices that no CLOSED notice has followed for each of these and for a ready session,
      and a fault exactly with a stale completion. */
  ghost predicate Told(share: Share, log: seq<Event>) {
    && FoundOnce(log) && Alternates(log)
    && share.departures == Departures(log)
    && Standing(log) == share.departures + (if share.ready then 1 else 0)
    && (share.fault <==> StaleCompletion(log))
  }

  lemma CrashTold(shares: seq<Share>, logs: seq<seq<Event>>)
    requires |shares| == |logs| && forall i :: 0 <= i < |logs| ==> Told(shares[i], logs[i])
    ensures (exists i :: 0 <= i < |shares| && shares[i].fault) <==>
            exists i :: 0 <= i < |logs| && StaleCompletion(logs[i])
  {
    forall i | 0 <= i < |logs| ensures shares[i].fault <==> StaleCompletion(logs[i]) {
      assert Told(shares[i], logs[i]);
    }
  }

  /** No client has two slots. */
  ghost predicate Unique(clients: seq<string>) {
    forall i, j :: 0 <= i < j < |clients| && clients[i] != [] ==> clients[i] != clients[j]
  }

  method CreateSessions(n: nat, video: MediaSource.Source, audio: MediaSource.Source) returns (made: seq<Session>)
    requires n > 0 && video != audio && video.maxPeers == audio.maxPeers == n
    requires video.numReadyPeer == audio.numReadyPeer == 0
    ensures |made| == n
    ensures forall i :: 0 <= i < n ==> Idle(made[i], video, audio)
    ensures forall i :: 0 <= i < n ==> fresh(made[i]) && fresh(made[i].dtls)
    ensures forall i, j :: 0 <= i < j < n ==> made[i] != made[j]
  {
    made := [];
    for k := 0 to n
      invariant |made| == k
      invariant forall i :: 0 <= i < k ==> Idle(made[i], video, audio)
      invariant forall i :: 0 <= i < k ==> fresh(made[i]) && fresh(made[i].dtls)
      invariant forall i, j :: 0 <= i < j < k ==> made[i] != made[j]
    {
      var s := new Session(video, audio, 0, 0);
      made := made + [s];
    }
  }

  ghost predicate Idle(s: Session, video: MediaSource.Source, audio: MediaSource.Source)
    reads s
  {
    && s.Sound() && s.sessionState == Inited && s.OwnShare() == NO_SHARE && s.View() == FIRST_VIEW
    && s.video == video && s.audio == audio
  }

  /** A session is sound, and its share and view are on record. */
  ghost predicate Recorded(s: Session, share: Share, view: Snapshot)
    reads s
  {
    s.Sound() && s.OwnShare() == share && s.View() == view
  }

  /** What a signalling message carries: an offer or answer, or a trickled candidate that can be read. */
  datatype Content = Sdp(description: Description) | Candidate {
    function Step(): Step {
      match this
      case Sdp(d) => RemoteDescription(d)
      case Candidate => RemoteCandidate
    }
  }

  /** `configured`: the ICE configuration of a session to be started is accepted. */
  datatype AppEvent =
    | Handler(index: nat, step: Step)
    | Message(client: string, configured: bool, content: Content)

  // ------------------------------------------------------------------ what an event leads to

  /** At most session `i` changed. */
  ghost predicate Only(before: seq<Snapshot>, after: seq<Snapshot>, i: nat) {
    i < |before| == |after| && after == before[i := after[i]]
  }

  /** The slot of `client`: its own, the first that carries its name; failing that, the first idle one. */
  ghost predicate IsTarget(clients: seq<string>, views: seq<Snapshot>, client: string, i: nat) {
    && i < |clients| == |views|
    && if client in clients then clients[i] == client && client !in clients[..i]
       else views[i].sessionState == Inited && forall j :: 0 <= j < i ==> views[j].sessionState != Inited
  }

  /** An idle session is started only for a client whose name fits, with an accepted configuration. */
  predicate Admits(view: Snapshot, client: string, configured: bool) {
    view.sessionState != Inited || (|client| <= 256 && configured)
  }

  /** The session is started if it is idle, and then takes the step. */
  ghost predicate Received(step: Step, before: Snapshot, after: Snapshot) {
    exists started :: Follows(Signalled, before, started) && Follows(step, started, after)
  }

  /** The clients' names and what is seen of their sessions. */
  datatype Table = Table(clients: seq<string>, views: seq<Snapshot>)

  /** What one event leads to: a handler moves its session alone; a message goes to its client's slot, which takes the
      client's name, unless there is none or it is refused. Nothing happens after a crash. */
  ghost predicate Moves(event: AppEvent, a: Table, b: Table) {
    if Crashed(a.views) then b == a
    else match event
      case Handler(i, step) =>
        && b.clients == a.clients
        && if i < |a.views| && !step.Signalled?
           then Only(a.views, b.views, i) && Follows(step, a.views[i], b.views[i]) else b == a
      case Message(client, configured, content) => Receives(client, configured, content.Step(), a, b)
  }

  ghost predicate Crashed(views: seq<Snapshot>) {
    exists k :: 0 <= k < |views| && views[k].fault
  }

  ghost predicate Receives(client: string, configured: bool, step: Step, a: Table, b: Table) {
    && (forall i: nat :: IsTarget(a.clients, a.views, client, i) && Admits(a.views[i], client, configured) ==>
          && b.clients == a.clients[i := client] && Only(a.views, b.views, i)
          && Received(step, a.views[i], b.views[i]))
    && ((forall i: nat :: IsTarget(a.clients, a.views, client, i) ==> !Admits(a.views[i], client, configured)) ==>
          b == a)
  }

  /** There is one target at most. */
  lemma OneTarget(clients: seq<string>, views: seq<Snapshot>, client: string, i: nat, j: nat)
    requires IsTarget(clients, views, client, i) && IsTarget(clients, views, client, j)
    ensures i == j
  {
    if client in clients {
      OnlyFirst(clients, client, i, j);
    }
  }

  lemma OnlyFirst(clients: seq<string>, client: string, i: nat, j: nat)
    requires i < |clients| && clients[i] == client && client !in clients[..i]
    requires j < |clients| && clients[j] == client && client !in clients[..j]
    ensures i == j
  {
  }

  lemma MessageMoves(client: string, configured: bool, content: Content, a: Table, mid: Table, b: Table, i: nat)
    requires !Crashed(a.views) && IsTarget(a.clients, a.views, client, i) && Admits(a.views[i], client, configured)
    requires mid.clients == b.clients == a.clients[i := client]
    requires Only(a.views, mid.views, i) && Links(Follows, Signalled, a.views[i], mid.views[i])
    requires Only(mid.views, b.views, i) && Links(Follows, content.Step(), mid.views[i], b.views[i])
    ensures Moves(Message(client, configured, content), a, b)
  {
    assert Received(content.Step(), a.views[i], b.views[i]);
    forall j: nat | IsTarget(a.clients, a.views, client, j) ensures i == j {
      OneTarget(a.clients, a.views, client, i, j);
    }
  }

  lemma HandlerMoves(i: nat, step: Step, a: Table, b: Table)
    requires !Crashed(a.views) && b.clients == a.clients && !step.Signalled?
    requires Only(a.views, b.views, i) && Links(Follows, step, a.views[i], b.views[i])
    ensures Moves(Handler(i, step), a, b)
  {
  }

  lemma NothingMoves(event: AppEvent, a: Table)
    requires event.Handler? && (event.index >= |a.views| || event.step.Signalled?)
    ensures Moves(event, a, a)
  {
  }

  lemma RefusedMoves(client: string, configured: bool, content: Content, a: Table)
    requires forall i: nat :: IsTarget(a.clients, a.views, client, i) ==> !Admits(a.views[i], client, configured)
    ensures Moves(Message(client, configured, content), a, a)
  {
  }

  /** A trickled candidate of a known client with an active session is queued there if there is room, and nothing else
      happens. */
  lemma CandidateQueued(a: Table, b: Table, client: string, configured: bool, i: nat)
    requires Moves(Message(client, configured, Candidate), a, b) && !Crashed(a.views)
    requires client in a.clients && IsTarget(a.clients, a.views, client, i) && a.views[i].sessionState != Inited
    ensures b.clients == a.clients
    ensures b.views == a.views[i := a.views[i].(queue := Queued(a.views[i].queue, AddRemoteCandidate))]
  {
    assert Admits(a.views[i], client, configured);
    var started :| Follows(Signalled, a.views[i], started) && Follows(RemoteCandidate, started, b.views[i]);
    assert started == a.views[i];
  }

  /** Both tracks' numReadyPeer, the sessions' shares, and the table. */
  datatype Observation = Observation(video: nat, audio: nat, shares: seq<Share>, table: Table)
  {
    predicate InOrder(viewers: nat) {
      && |shares| == viewers
      && video == audio == ReadyCount(shares) + DepartureCount(shares) - CappedCount(shares)
      && ReadyCount(shares) <= video <= viewers
    }
  }

  /** The count is never too low. It is too high exactly when more sessions departed silently than READY
      notices were capped, and so never while no session has. */
  lemma CountRight(seen: Observation, viewers: nat)
    requires seen.InOrder(viewers)
    ensures CappedCount(seen.shares) <= DepartureCount(seen.shares)
    ensures seen.video > ReadyCount(seen.shares) <==> DepartureCount(seen.shares) > CappedCount(seen.shares)
    ensures (forall i :: 0 <= i < viewers ==> seen.shares[i].departures == 0) ==> seen.video == ReadyCount(seen.shares)
  {
    if forall i :: 0 <= i < viewers ==> seen.shares[i].departures == 0 {
      NoDepartures(seen.shares);
    }
  }

  lemma {:induction false} NoDepartures(shares: seq<Share>)
    requires forall i :: 0 <= i < |shares| ==> shares[i].departures == 0
    ensures DepartureCount(shares) == 0
  {
    if shares != [] {
      NoDepartures(shares[1..]);
    }
  }

  class Application {
    const video: MediaSource.Source
    const audio: MediaSource.Source
    const sessions: seq<Session>
    var clients: seq<string>
    // Some session read a null transceiver; the process is gone
    var crashed: bool
    ghost var shares: seq<Share>
    ghost var views: seq<Snapshot>

    /** Sessions share nothing but the tracks. No method can change this. */
    ghost predicate Wired() {
      && video != audio
      && |sessions| == video.maxPeers == audio.maxPeers
      && (forall i :: 0 <= i < |sessions| ==> sessions[i].video == video && sessions[i].audio == audio)
      && (forall i, j :: 0 <= i < j < |sessions| ==> sessions[i] != sessions[j])
    }

    /** Every session is sound, and the tracks' counts are the sum of the sessions' shares. */
    ghost predicate Consistent()
      reads this`crashed, this`shares, this`views, sessions, video, audio
    {
      && |shares| == |views| == |sessions|
      && (forall i :: 0 <= i < |sessions| ==> Recorded(sessions[i], shares[i], views[i]))
      && Balanced(video.numReadyPeer, audio.numReadyPeer, shares)
      && (crashed <==> exists i :: 0 <= i < |shares| && shares[i].fault)
    }

    /** Besides, no client has two slots. */
    ghost predicate Valid()
      reads this, sessions, video, audio
    {
      Consistent() && |clients| == |sessions| && Unique(clients)
    }

    constructor (viewers: nat)
      requires viewers > 0
      ensures Wired() && Valid() && |sessions| == viewers && !crashed
      ensures fresh(video) && fresh(audio)
      ensures forall s :: s in sessions ==> fresh(s) && fresh(s.dtls)
      ensures forall i :: 0 <= i < viewers ==> clients[i] == [] && sessions[i].sessionState == Inited
    {
      var v := new MediaSource.Source(viewers);
      var a := new MediaSource.Source(viewers);
      var made := CreateSessions(viewers, v, a);
      video, audio, sessions := v, a, made;
      clients, crashed, shares := seq(viewers, _ => []), false, seq(viewers, _ => NO_SHARE);
      views := seq(viewers, _ => FIRST_VIEW);
      NothingCounted(seq(viewers, _ => NO_SHARE));
    }

    /** Prepares session `i` for a handler: it is told the others' share. */
    ghost method Focus(i: nat)
      requires Wired() && Consistent() && i < |sessions|
      modifies {sessions[i]}
      ensures Consistent() && sessions[i].Valid() && Focused(i)
      ensures sessions[i].View() == old(sessions[i].View())
    {
      OthersBound(shares, i);
      sessions[i].SetOthers(OthersReady(shares, i), OthersSurplus(shares, i));
    }

    ghost predicate Focused(i: nat)
      requires i < |sessions| && |shares| == |sessions|
      reads this`shares, sessions
    {
      sessions[i].others == OthersReady(shares, i) && sessions[i].surplus == OthersSurplus(shares, i)
    }

    /** After a handler of session `i`, its share is on record again. */
    ghost method Settle(i: nat)
      requires Wired() && i < |sessions| == |shares| == |views| && Focused(i) && sessions[i].Valid()
      requires forall k :: 0 <= k < |sessions| && k != i ==>
                 Recorded(sessions[k], shares[k], views[k]) && !shares[k].fault
      requires crashed == sessions[i].fault
      modifies this`shares, this`views
      ensures Consistent() && views == old(views)[i := sessions[i].View()]
    {
      OthersKept(shares, i, sessions[i].OwnShare());
      shares, views := shares[i := sessions[i].OwnShare()], views[i := sessions[i].View()];
    }

    /** One handler of one session. */
    method RunHandler(i: nat, step: Step)
      requires Wired() && Consistent() && !crashed && i < |sessions|
      modifies this`crashed, this`shares, this`views, {sessions[i]}, sessions[i].dtls, video, audio
      ensures Consistent() && Only(old(views), views, i) && Links(Follows, step, old(views)[i], views[i])
    {
      assert Recorded(sessions[i], shares[i], views[i]);
      Focus(i);
      sessions[i].DoStep(step);
      crashed := sessions[i].fault;
      Settle(i);
    }

    /** The slot search: the client's own slot, even when an idle one comes before it; failing that
        the first idle slot. */
    method FindSlot(client: string) returns (slot: Option<nat>)
      requires Wired() && |clients| == |sessions|
      ensures slot.Some? ==> slot.value < |clients|
      ensures client in clients ==>
                slot.Some? && clients[slot.value] == client && client !in clients[..slot.value]
      ensures client !in clients && slot.Some? ==>
                && sessions[slot.value].sessionState == Inited
                && forall j :: 0 <= j < slot.value ==> sessions[j].sessionState != Inited
      ensures slot.None? ==> forall j :: 0 <= j < |sessions| ==> sessions[j].sessionState != Inited
    {
      slot := None;
      for i := 0 to |sessions|
        invariant client !in clients[..i]
        invariant slot.None? ==> forall j :: 0 <= j < i ==> sessions[j].sessionState != Inited
        invariant slot.Some? ==> slot.value < i && sessions[slot.value].sessionState == Inited
        invariant slot.Some? ==> forall j :: 0 <= j < slot.value ==> sessions[j].sessionState != Inited
      {
        if clients[i] == client {
          return Some(i);
        } else if slot.None? && sessions[i].sessionState == Inited {
          slot := Some(i);
        }
      }
    }

    /** Starts idle session `i` for `client`, unless its name is too long or its configuration refused. */
    method StartSession(i: nat, client: string, configured: bool) returns (ok: bool)
      requires Wired() && Valid() && !crashed && i < |sessions| && sessions[i].sessionState == Inited
      requires client == clients[i] || client !in clients
      modifies this`clients, this`shares, this`views, {sessions[i]}
      ensures Valid()
      ensures ok <==> |client| <= REMOTE_ID_MAX && configured
      ensures ok ==> clients == old(clients)[i := client] && Only(old(views), views, i)
                     && Links(Follows, Signalled, old(views)[i], views[i])
                     && sessions[i].sessionState == Start && sessions[i].transceivers == BOTH_TRACKS
      ensures !ok ==> clients == old(clients) && views == old(views)
    {
      ok := |client| <= REMOTE_ID_MAX && configured;
      if ok {
        BeginSession(i);
        clients := clients[i := client];
      }
    }

    method BeginSession(i: nat)
      requires Wired() && Consistent() && !crashed && i < |sessions| && sessions[i].sessionState == Inited
      modifies this`shares, this`views, {sessions[i]}
      ensures Consistent() && Only(old(views), views, i) && Links(Follows, Signalled, old(views)[i], views[i])
      ensures sessions[i].sessionState == Start && sessions[i].transceivers == BOTH_TRACKS
    {
      assert Recorded(sessions[i], shares[i], views[i]);
      Focus(i);
      sessions[i].Signal();
      Settle(i);
    }

    /** The session of a client: its own slot, or a free one started for it. */
    method GetPeerConnectionSession(client: string, configured: bool) returns (slot: Option<nat>)
      requires Wired() && Valid() && !crashed
      modifies this`clients, this`shares, this`views, sessions
      ensures Valid()
      ensures slot.Some? ==> slot.value < |clients| && clients == old(clients)[slot.value := client]
      ensures slot.None? ==> clients == old(clients)
      // A slot is given exactly when there is one and it is not refused: the client's own, or the first idle one.
      ensures forall i: nat :: IsTarget(old(clients), old(views), client, i) ==>
                slot == if Admits(old(views)[i], client, configured) then Some(i) else None
      ensures slot.None? ==> views == old(views)
      ensures slot.Some? ==> IsTarget(old(clients), old(views), client, slot.value)
      // A session in use is not disturbed, and an idle one is started.
      ensures slot.Some? ==> Only(old(views), views, slot.value)
                             && Links(Follows, Signalled, old(views)[slot.value], views[slot.value])
      ensures slot.Some? ==> sessions[slot.value].sessionState != Inited && !crashed
    {
      slot := FindSlot(client);
      SlotIsTarget(slot, client);
      if slot.Some? && sessions[slot.value].sessionState == Inited {
        var ok := StartSession(slot.value, client, configured);
        if !ok {
          slot := None;
        }
      }
    }

    /** What the slot search finds is the target, which is the only one. */
    lemma SlotIsTarget(slot: Option<nat>, client: string)
      requires Wired() && Valid()
      requires slot.Some? ==> slot.value < |clients|
      requires client in clients ==>
                 slot.Some? && clients[slot.value] == client && client !in clients[..slot.value]
      requires client !in clients && slot.Some? ==>
                 && sessions[slot.value].sessionState == Inited
                 && forall j :: 0 <= j < slot.value ==> sessions[j].sessionState != Inited
      requires slot.None? ==> forall j :: 0 <= j < |sessions| ==> sessions[j].sessionState != Inited
      ensures slot.Some? ==> IsTarget(clients, views, client, slot.value)
                             && views[slot.value] == sessions[slot.value].View()
      ensures forall i: nat :: IsTarget(clients, views, client, i) ==> slot == Some(i)
    {
      forall i | 0 <= i < |sessions| ensures views[i].sessionState == sessions[i].sessionState {
        assert Recorded(sessions[i], shares[i], views[i]);
      }
      if slot.Some? {
        assert Recorded(sessions[slot.value], shares[slot.value], views[slot.value]);
      }
      forall i: nat | IsTarget(clients, views, client, i) ensures slot == Some(i) {
        if slot.Some? {
          OneTarget(clients, views, client, i, slot.value);
        }
      }
    }

    ghost function OnTable(): Table
      reads this`clients, this`views
    {
      Table(clients, views)
    }

    /** One signalling message, handled by the session of the client that sent it. */
    method HandleMessage(client: string, configured: bool, content: Content) returns (slot: Option<nat>)
      requires Wired() && Valid() && !crashed
      modifies this, sessions, set s | s in sessions :: s.dtls, video, audio
      ensures Valid()
      ensures slot.Some? ==> IsTarget(old(clients), old(views), client, slot.value)
      ensures slot.None? ==> clients == old(clients)
      ensures Links(Moves, Message(client, configured, content), old(OnTable()), OnTable())
    {
      CrashSeen();
      ghost var a := OnTable();
      slot := GetPeerConnectionSession(client, configured);
      ghost var mid := OnTable();
      if slot.Some? {
        RunHandler(slot.value, content.Step());
        MessageMoves(client, configured, content, a, mid, OnTable(), slot.value);
      } else {
        RefusedMoves(client, configured, content, a);
      }
    }

    /** One handler or one message. Sessions are started by messages only, and nothing runs after a crash. */
    method HandleEvent(event: AppEvent)
      requires Wired() && Valid()
      modifies this, sessions, set s | s in sessions :: s.dtls, video, audio
      ensures Valid() && (old(crashed) ==> crashed)
      ensures Links(Moves, event, old(OnTable()), OnTable())
    {
      CrashSeen();
      if crashed {
        assert Moves(event, OnTable(), OnTable());
        return;
      }
      match event {
        case Handler(i, step) => HandleStep(i, step);
        case Message(client, configured, content) => var _ := HandleMessage(client, configured, content);
      }
    }

    method HandleStep(i: nat, step: Step)
      requires Wired() && Valid() && !crashed
      modifies this`crashed, this`shares, this`views, sessions, set s | s in sessions :: s.dtls, video, audio
      ensures Valid()
      ensures Links(Moves, Handler(i, step), old(OnTable()), OnTable())
    {
      CrashSeen();
      ghost var a := OnTable();
      if i < |sessions| && !step.Signalled? {
        RunHandler(i, step);
        HandlerMoves(i, step, a, OnTable());
      } else {
        NothingMoves(Handler(i, step), a);
      }
    }

    lemma CrashSeen()
      requires Consistent()
      ensures crashed <==> Crashed(views)
    {
      forall k | 0 <= k < |views| ensures views[k].fault <==> shares[k].fault {
        assert Recorded(sessions[k], shares[k], views[k]);
      }
    }

    /** One handler or one message, and what can be seen after it. */
    method Watch(event: AppEvent, ghost before: Observation) returns (seen: Observation)
      requires Wired() && Valid() && Seen(before)
      modifies this, sessions, set s | s in sessions :: s.dtls, video, audio
      ensures Valid() && seen.InOrder(|sessions|) && Seen(seen)
      ensures Links(Moved, event, before, seen)
    {
      HandleEvent(event);
      seen := Observe();
    }

    /** The log of session `i`. */
    method LogOf(i: nat) returns (log: seq<Event>)
      requires Consistent() && i < |sessions|
      ensures Told(shares[i], log)
    {
      assert Recorded(sessions[i], shares[i], views[i]);
      log := sessions[i].log;
      BalanceMeans(log, |log|);
    }

    /** The sessions' logs, of which one tells whether the process is gone. */
    method Logs() returns (logs: seq<seq<Event>>)
      requires Wired() && Valid()
      ensures |logs| == |sessions|
      ensures forall i :: 0 <= i < |logs| ==> Told(shares[i], logs[i])
      ensures crashed <==> exists i :: 0 <= i < |logs| && StaleCompletion(logs[i])
    {
      logs := [];
      for i := 0 to |sessions|
        invariant |logs| == i
        invariant forall k :: 0 <= k < i ==> Told(shares[k], logs[k])
      {
        var log := LogOf(i);
        logs := logs + [log];
      }
      CrashTold(shares, logs);
    }

    /** What is seen is what is on record. */
    ghost predicate Seen(seen: Observation)
      reads this`shares, this`views, this`clients
    {
      seen.shares == shares && seen.table == OnTable()
    }

    /** The counts of both tracks and what is seen of the sessions. */
    method Observe() returns (seen: Observation)
      requires Wired() && Valid()
      ensures seen.InOrder(|sessions|) && Seen(seen)
    {
      var found, shown := [], [];
      for i := 0 to |sessions|
        invariant found == shares[..i] && shown == views[..i]
      {
        assert Recorded(sessions[i], shares[i], views[i]);
        found, shown := found + [sessions[i].OwnShare()], shown + [sessions[i].View()];
      }
      assert found == shares && shown == views;
      seen := Observation(video.numReadyPeer, audio.numReadyPeer, found, Table(clients, shown));
    }
  }

  /** Any interleaving of handlers and messages over any number of viewers: each of them moves the sessions and the
      table of clients as `Moves` says; after each of them both tracks
      count the sessions in CONNECTION_READY and the silent departures less the capped notices, and never fewer
      than the former; no client has two slots; each session's notices alternate; and the process ends exactly
      when a handshake completes on a session that was not started since its transceivers were cleared. */
  method Run(viewers: nat, events: seq<AppEvent>)
    returns (counts: seq<Observation>, clients: seq<string>, logs: seq<seq<Event>>, crashed: bool)
    requires viewers > 0
    ensures |counts| == |events| + 1 && AllInOrder(counts, viewers) && Linked(Moved, events, counts)
    ensures |clients| == viewers && Unique(clients)
    ensures |logs| == viewers
    ensures crashed <==> exists i :: 0 <= i < viewers && StaleCompletion(logs[i])
    ensures forall i :: 0 <= i < viewers ==> Told(counts[|events|].shares[i], logs[i])
  {
    var app := new Application(viewers);
    counts := WatchAll(app, events);
    clients, crashed := app.clients, app.crashed;
    logs := app.Logs();
  }

  method WatchAll(app: Application, events: seq<AppEvent>) returns (counts: seq<Observation>)
    requires app.Wired() && app.Valid()
    modifies app, app.sessions, set s | s in app.sessions :: s.dtls, app.video, app.audio
    ensures app.Valid()
    ensures |counts| == |events| + 1 && app.Seen(counts[|events|])
    ensures AllInOrder(counts, |app.sessions|) && Linked(Moved, events, counts)
  {
    var first := app.Observe();
    counts := [first];
    for n := 0 to |events|
      invariant app.Valid()
      invariant |counts| == n + 1 && app.Seen(counts[n])
      invariant AllInOrder(counts, |app.sessions|) && Linked(Moved, events, counts)
    {
      var seen := app.Watch(events[n], counts[n]);
      InOrderGrows(counts, seen, |app.sessions|);
      LinkedGrows(Moved, events, counts, seen);
      counts := counts + [seen];
    }
  }

  ghost predicate Moved(event: AppEvent, before: Observation, after: Observation) {
    Moves(event, before.table, after.table)
  }

  predicate AllInOrder(counts: seq<Observation>, viewers: nat) {
    forall n :: 0 <= n < |counts| ==> counts[n].InOrder(viewers)
  }

  lemma InOrderGrows(counts: seq<Observation>, seen: Observation, viewers: nat)
    requires AllInOrder(counts, viewers) && seen.InOrder(viewers)
    ensures AllInOrder(counts + [seen], viewers)
  {
  }
}
