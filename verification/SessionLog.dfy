/** The log of a session, and what every event keeps true of it. */
module SessionLog {
  import opened IceTypes
  import opened Trace

  /** Between two CLOSED notices to a track there is a READY notice to it. */
  ghost predicate Alternates(log: seq<Event>) {
    && Separated(log, PeerClosed(Video), PeerReady(Video))
    && Separated(log, PeerClosed(Audio), PeerReady(Audio))
  }

  /** Each track has had a READY notice since its last CLOSED notice. */
  ghost predicate Announced(log: seq<Event>) {
    && Clear(log, PeerClosed(Video), PeerReady(Video))
    && Clear(log, PeerClosed(Audio), PeerReady(Audio))
  }

  /** FOUND is reported at most once per start of the controller. */
  ghost predicate FoundOnce(log: seq<Event>) {
    Separated(log, ConnectionFound, IceStarted)
  }

  /** The session has no transceivers: it was not started since they were last cleared. */
  ghost predicate Bare(log: seq<Event>) {
    Clear(log, SessionStarted, TransceiversCleared)
  }

  /** A handshake completed while the session had no transceivers. */
  ghost predicate StaleCompletion(log: seq<Event>) {
    exists n :: IsAt(log, n, HandshakeCompleted) && Bare(log[..n])
  }

  /** How often a ready session ceased to be ready, or was told READY again, without a CLOSED notice. */
  function Departures(log: seq<Event>): nat {
    DeparturesTo(log, |log|)
  }

  function DeparturesTo(log: seq<Event>, n: nat): nat
    requires n <= |log|
  {
    if n == 0 then 0 else DeparturesTo(log, n - 1) + if log[n - 1] == Departed then 1 else 0
  }

  /** The READY notices to the video track less the CLOSED ones. */
  function Standing(log: seq<Event>): int {
    StandingTo(log, |log|)
  }

  function StandingTo(log: seq<Event>, n: nat): int
    requires n <= |log|
  {
    if n == 0 then 0
    else StandingTo(log, n - 1)
         + if log[n - 1] == PeerReady(Video) then 1 else if log[n - 1] == PeerClosed(Video) then -1 else 0
  }

  /** The notices that stand for the session as it is: all that stand but those of silent departures. */
  function Balance(log: seq<Event>): int {
    BalanceTo(log, |log|)
  }

  function BalanceTo(log: seq<Event>, n: nat): int
    requires n <= |log|
  {
    if n == 0 then 0 else BalanceTo(log, n - 1) + Weight(log[n - 1])
  }

  function Weight(e: Event): int {
    if e == PeerReady(Video) then 1 else if e in {PeerClosed(Video), Departed} then -1 else 0
  }

  lemma {:induction false} BalanceMeans(log: seq<Event>, n: nat)
    requires n <= |log|
    ensures StandingTo(log, n) == BalanceTo(log, n) + DeparturesTo(log, n)
    decreases n
  {
    if n > 0 {
      BalanceMeans(log, n - 1);
    }
  }

  lemma {:induction false} SumsPrefix(log: seq<Event>, e: Event, n: nat)
    requires n <= |log|
    ensures BalanceTo(log + [e], n) == BalanceTo(log, n) && DeparturesTo(log + [e], n) == DeparturesTo(log, n)
    decreases n
  {
    if n > 0 {
      SumsPrefix(log, e, n - 1);
    }
  }

  lemma SumsAppend(log: seq<Event>, e: Event)
    ensures Balance(log + [e]) == Balance(log) + Weight(e)
    ensures Departures(log + [e]) == Departures(log) + if e == Departed then 1 else 0
  {
    SumsPrefix(log, e, |log|);
  }

  /** The order of the log: `bare` when the session has no transceivers, `fault` once it has read a null
      transceiver. */
  ghost predicate LogOrder(log: seq<Event>, isNominated: bool, ready: bool, bare: bool, fault: bool) {
    && FoundOnce(log)
    && (!isNominated ==> Clear(log, ConnectionFound, IceStarted))
    && Alternates(log)
    && (ready ==> Announced(log))
    && (bare <==> Bare(log))
    && (fault <==> StaleCompletion(log))
  }

  /** How the log goes with the session. */
  ghost predicate LogSound(log: seq<Event>, isNominated: bool, ready: bool, bare: bool, fault: bool) {
    LogOrder(log, isNominated, ready, bare, fault) && Balance(log) == if ready then 1 else 0
  }

  /** What one more event does to the two facts about transceivers. */
  lemma BareAppend(log: seq<Event>, e: Event)
    ensures Bare(log + [e]) <==> e == TransceiversCleared || (e != SessionStarted && Bare(log))
    ensures StaleCompletion(log + [e]) <==> StaleCompletion(log) || (e == HandshakeCompleted && Bare(log))
  {
    BareAfter(log, e);
    StaleAfter(log, e);
  }

  lemma BareAfter(log: seq<Event>, e: Event)
    ensures Bare(log + [e]) <==> e == TransceiversCleared || (e != SessionStarted && Bare(log))
  {
    var more := log + [e];
    if e == SessionStarted {
      assert IsAt(more, |log|, SessionStarted);
    } else if e == TransceiversCleared || Bare(log) {
      AppendClear(log, SessionStarted, TransceiversCleared, e);
    } else {
      var i :| IsAt(log, i, SessionStarted) && forall k :: i < k ==> !IsAt(log, k, TransceiversCleared);
      assert IsAt(more, i, SessionStarted);
      assert forall k :: IsAt(more, k, TransceiversCleared) ==> IsAt(log, k, TransceiversCleared);
    }
  }

  lemma StaleAfter(log: seq<Event>, e: Event)
    ensures StaleCompletion(log + [e]) <==> StaleCompletion(log) || (e == HandshakeCompleted && Bare(log))
  {
    var more := log + [e];
    assert more[..|log|] == log;
    if StaleCompletion(log) {
      var n :| IsAt(log, n, HandshakeCompleted) && Bare(log[..n]);
      assert more[..n] == log[..n] && IsAt(more, n, HandshakeCompleted);
    }
    if e == HandshakeCompleted && Bare(log) {
      assert IsAt(more, |log|, HandshakeCompleted);
    }
    if StaleCompletion(more) {
      var n :| IsAt(more, n, HandshakeCompleted) && Bare(more[..n]);
      if n < |log| {
        assert more[..n] == log[..n] && IsAt(log, n, HandshakeCompleted);
      }
    }
  }

  /** The order after an event other than FOUND and CLOSED. */
  lemma AppendOrder(log: seq<Event>, isNominated: bool, ready: bool, bare: bool, fault: bool, e: Event)
    requires LogOrder(log, isNominated, ready, bare, fault)
    requires e != ConnectionFound && !e.PeerClosed?
    ensures LogOrder(log + [e], isNominated && e != IceStarted, ready,
                     e == TransceiversCleared || (e != SessionStarted && bare),
                     fault || (e == HandshakeCompleted && bare))
  {
    BareAppend(log, e);
    AppendSeparated(log, ConnectionFound, IceStarted, e);
    if e == IceStarted || !isNominated {
      AppendClear(log, ConnectionFound, IceStarted, e);
    }
    AppendSeparated(log, PeerClosed(Video), PeerReady(Video), e);
    AppendSeparated(log, PeerClosed(Audio), PeerReady(Audio), e);
    if ready {
      AppendClear(log, PeerClosed(Video), PeerReady(Video), e);
      AppendClear(log, PeerClosed(Audio), PeerReady(Audio), e);
    }
  }

  /** An event that is neither FOUND nor a notice nor a silent departure. */
  lemma AppendOther(log: seq<Event>, isNominated: bool, ready: bool, bare: bool, fault: bool, e: Event)
    requires LogSound(log, isNominated, ready, bare, fault)
    requires e in {SessionStarted, TransceiversCleared, IceStarted, HandshakeCompleted}
    ensures LogSound(log + [e], isNominated && e != IceStarted, ready,
                     e == TransceiversCleared || (e != SessionStarted && bare),
                     fault || (e == HandshakeCompleted && bare))
    ensures Departures(log + [e]) == Departures(log)
  {
    AppendOrder(log, isNominated, ready, bare, fault, e);
    SumsAppend(log, e);
  }

  /** What is logged when a session leaves its state without a notice. */
  function Leaving(ready: bool): seq<Event> {
    if ready then [Departed] else []
  }

  /** A session leaves CONNECTION_READY, or any other state, without a notice. */
  lemma AppendSilent(log: seq<Event>, isNominated: bool, ready: bool, bare: bool, fault: bool)
    requires LogSound(log, isNominated, ready, bare, fault)
    ensures LogSound(log + Leaving(ready), isNominated, false, bare, fault)
    ensures Departures(log + Leaving(ready)) == Departures(log) + if ready then 1 else 0
  {
    if ready {
      AppendOrder(log, isNominated, ready, bare, fault, Departed);
      SumsAppend(log, Departed);
    } else {
      assert log + [] == log;
    }
  }

  /** FOUND, which needs a start since the last one. */
  lemma AppendFound(log: seq<Event>, ready: bool, bare: bool, fault: bool)
    requires LogSound(log, false, ready, bare, fault)
    ensures LogSound(log + [ConnectionFound], true, ready, bare, fault)
    ensures Departures(log + [ConnectionFound]) == Departures(log)
  {
    var e := ConnectionFound;
    BareAppend(log, e);
    SumsAppend(log, e);
    AppendSeparated(log, ConnectionFound, IceStarted, e);
    AppendSeparated(log, PeerClosed(Video), PeerReady(Video), e);
    AppendSeparated(log, PeerClosed(Audio), PeerReady(Audio), e);
    if ready {
      AppendClear(log, PeerClosed(Video), PeerReady(Video), e);
      AppendClear(log, PeerClosed(Audio), PeerReady(Audio), e);
    }
  }

  function ReadyNotices(): seq<Event> {
    [PeerReady(Video), PeerReady(Audio)]
  }

  function ClosedNotices(): seq<Event> {
    [PeerClosed(Video), PeerClosed(Audio)]
  }

  /** READY notices to both tracks announce the session. */
  lemma AppendReady(log: seq<Event>, isNominated: bool, bare: bool, fault: bool)
    requires LogSound(log, isNominated, false, bare, fault)
    ensures LogSound(log + ReadyNotices(), isNominated, true, bare, fault)
    ensures Departures(log + ReadyNotices()) == Departures(log)
  {
    var once := log + [PeerReady(Video)];
    SumsAppend(log, PeerReady(Video));
    SumsAppend(once, PeerReady(Audio));
    AppendOrder(log, isNominated, false, bare, fault, PeerReady(Video));
    AppendOrder(once, isNominated, false, bare, fault, PeerReady(Audio));
    AppendClear(log, PeerClosed(Video), PeerReady(Video), PeerReady(Video));
    AppendClear(once, PeerClosed(Video), PeerReady(Video), PeerReady(Audio));
    AppendClear(once, PeerClosed(Audio), PeerReady(Audio), PeerReady(Audio));
    assert once + [PeerReady(Audio)] == log + ReadyNotices();
  }

  /** The order after one CLOSED notice. */
  lemma AppendClosed(log: seq<Event>, isNominated: bool, bare: bool, fault: bool, t: Track)
    requires LogOrder(log, isNominated, false, bare, fault) && Clear(log, PeerClosed(t), PeerReady(t))
    ensures LogOrder(log + [PeerClosed(t)], isNominated, false, bare, fault)
    ensures forall u: Track :: u != t && Clear(log, PeerClosed(u), PeerReady(u)) ==>
              Clear(log + [PeerClosed(t)], PeerClosed(u), PeerReady(u))
  {
    var e := PeerClosed(t);
    BareAppend(log, e);
    AppendSeparated(log, ConnectionFound, IceStarted, e);
    AppendSeparated(log, PeerClosed(Video), PeerReady(Video), e);
    AppendSeparated(log, PeerClosed(Audio), PeerReady(Audio), e);
    if !isNominated {
      AppendClear(log, ConnectionFound, IceStarted, e);
    }
    forall u: Track | u != t && Clear(log, PeerClosed(u), PeerReady(u))
      ensures Clear(log + [e], PeerClosed(u), PeerReady(u))
    {
      AppendClear(log, PeerClosed(u), PeerReady(u), e);
    }
  }

  /** CLOSED notices may go to both tracks of an announced session. */
  lemma AppendBothClosed(log: seq<Event>, isNominated: bool, bare: bool, fault: bool)
    requires LogSound(log, isNominated, true, bare, fault)
    ensures LogSound(log + ClosedNotices(), isNominated, false, bare, fault)
    ensures Departures(log + ClosedNotices()) == Departures(log)
  {
    var once := log + [PeerClosed(Video)];
    SumsAppend(log, PeerClosed(Video));
    SumsAppend(once, PeerClosed(Audio));
    AppendClosed(log, isNominated, bare, fault, Video);
    AppendClosed(once, isNominated, bare, fault, Audio);
    assert once + [PeerClosed(Audio)] == log + ClosedNotices();
  }
}
