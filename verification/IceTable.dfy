/** What the controller's operations do to its socket table, as functions on the controller. */
module IceTable {
  import opened Basics
  import opened IceTypes
  import opened Answers

  /** Closing slot `i` keeps the table valid and releases exactly its descriptor. */
  lemma CloseKeepsTable(sockets: seq<Socket>, count: nat, open: map<int, nat>, i: nat)
    requires TableValid(sockets, count, open)
    requires i < |sockets| && sockets[i].fd != -1
    ensures TableValid(sockets[i := sockets[i].(state := Unused, fd := -1)], count, open - {sockets[i].fd})
  {
  }

  /** A table whose counted slots are all unused holds no descriptor. */
  lemma UnusedHoldsNothing(sockets: seq<Socket>, count: nat, open: map<int, nat>)
    requires TableValid(sockets, count, open)
    requires forall i :: 0 <= i < count ==> sockets[i].state == Unused
    ensures open == map[]
  {
    assert forall fd | fd in open :: SlotValid(sockets[open[fd]], open[fd], count, open);
    assert forall fd :: fd !in open;
  }

  /** Using the first slot past the count, with a fresh descriptor, keeps the table valid. */
  lemma OpenKeepsTable(sockets: seq<Socket>, count: nat, open: map<int, nat>, slot: Socket)
    requires TableValid(sockets, count, open) && count < MAX_SOCKETS
    requires slot.fd >= 0 && slot.fd !in open
    requires slot.state != Unused && (slot.state == InProgress || slot.local.Some?)
    ensures TableValid(sockets[count := slot], count + 1, open[slot.fd := count])
  {
  }

  /** Changing an open slot's fields but not its descriptor keeps the table valid. */
  lemma UpdateKeepsTable(sockets: seq<Socket>, count: nat, open: map<int, nat>, i: nat, slot: Socket)
    requires TableValid(sockets, count, open)
    requires i < |sockets| && sockets[i].fd != -1 && slot.fd == sockets[i].fd
    requires slot.state != Unused && (slot.state == InProgress || slot.local.Some?)
    ensures TableValid(sockets[i := slot], count, open)
  {
  }

  /** With every slot unused, no slot need be counted. */
  lemma EmptyTable(sockets: seq<Socket>, count: nat)
    requires TableValid(sockets, count, map[])
    ensures TableValid(sockets, 0, map[])
  {
  }

  // ------------------------------------------------------------------ closing slots

  function Freed(c: IceController, i: nat): IceController
    requires i < |c.sockets|
  {
    if c.sockets[i].fd == -1 then c
    else c.(sockets := c.sockets[i := FreedSlot(c.sockets[i], false)], open := c.open - {c.sockets[i].fd})
  }

  /** What freeing leaves in a slot. */
  function FreedSlot(s: Socket, kept: bool): Socket {
    if kept || s.fd == -1 then s else s.(state := Unused, fd := -1)
  }

  lemma FreedTable(c: IceController, i: nat)
    requires c.Table() && i < |c.sockets|
    ensures Freed(c, i).Table() && Freed(c, i).ServedFrom(c)
    ensures c.sockets[i].state == Unused ==> Freed(c, i) == c
  {
    assert SlotValid(c.sockets[i], i, c.count, c.open);
    if c.sockets[i].fd != -1 {
      CloseKeepsTable(c.sockets, c.count, c.open, i);
    }
  }

  /** The first `n` slots freed, but for those in `kept`. */
  ghost function FreedBut(c: IceController, kept: set<nat>, n: nat): (d: IceController)
    requires n <= |c.sockets|
    ensures |d.sockets| == |c.sockets|
  {
    if n == 0 then c
    else if n - 1 in kept then FreedBut(c, kept, n - 1)
    else Freed(FreedBut(c, kept, n - 1), n - 1)
  }

  lemma {:induction false} FreedButAt(c: IceController, kept: set<nat>, n: nat, k: nat)
    requires n <= |c.sockets| && k < |c.sockets|
    ensures FreedBut(c, kept, n).sockets[k] == FreedSlot(c.sockets[k], n <= k || k in kept)
    decreases n
  {
    if n > 0 {
      FreedButAt(c, kept, n - 1, k);
    }
  }

  lemma {:induction false} FreedButFrame(c: IceController, kept: set<nat>, n: nat)
    requires n <= |c.sockets|
    ensures var d := FreedBut(c, kept, n); d == c.(sockets := d.sockets, open := d.open) && d.open.Keys <= c.open.Keys
    decreases n
  {
    if n > 0 {
      FreedButFrame(c, kept, n - 1);
    }
  }

  lemma {:induction false} FreedButTable(c: IceController, kept: set<nat>, n: nat)
    requires c.Table() && n <= |c.sockets|
    ensures FreedBut(c, kept, n).Table()
    decreases n
  {
    if n > 0 {
      FreedButTable(c, kept, n - 1);
      FreedTable(FreedBut(c, kept, n - 1), n - 1);
    }
  }

  /** All counted contexts freed, but for those in `kept`. */
  lemma FreedButServes(c: IceController, kept: set<nat>, d: IceController)
    requires c.Table() && d == FreedBut(c, kept, c.count)
    ensures d.Table() && d == c.(sockets := d.sockets, open := d.open)
    ensures NoneOpened(c.sockets, d.sockets) && d.open.Keys <= c.open.Keys
    ensures forall k :: 0 <= k < |c.sockets| ==> d.sockets[k] == FreedSlot(c.sockets[k], c.count <= k || k in kept)
  {
    FreedButTable(c, kept, c.count);
    FreedButFrame(c, kept, c.count);
    forall k | 0 <= k < |c.sockets|
      ensures d.sockets[k] == FreedSlot(c.sockets[k], c.count <= k || k in kept)
    {
      FreedButAt(c, kept, c.count, k);
    }
  }

  ghost function Lingering(c: IceController): set<nat> {
    set k | 0 <= k < |c.sockets| && Lingers(c.sockets[k])
  }

  /** The controller after every counted context but the lingering ones was freed. */
  lemma ReleasedTable(c: IceController, d: IceController)
    requires c.Table() && d == FreedBut(c, Lingering(c), c.count)
    ensures d.Table() && d == c.(sockets := d.sockets, open := d.open)
    ensures forall k :: 0 <= k < |c.sockets| ==> d.sockets[k] == Released(c.sockets[k])
    ensures NoneOpened(c.sockets, d.sockets) && d.open.Keys <= c.open.Keys
    ensures !AnyLingers(c.sockets) ==> d.open == map[]
  {
    FreedButServes(c, Lingering(c), d);
    forall k | 0 <= k < |c.sockets| ensures d.sockets[k] == Released(c.sockets[k]) {
      assert SlotValid(c.sockets[k], k, c.count, c.open);
      assert k in Lingering(c) <==> Lingers(c.sockets[k]);
    }
    if !AnyLingers(c.sockets) {
      UnusedHoldsNothing(d.sockets, d.count, d.open);
    }
  }

  ghost function OthersKept(c: IceController, chosen: nat): set<nat> {
    set k | 0 <= k < |c.sockets| && (k == chosen || c.sockets[k].local == Some(Relay))
  }

  /** The controller after every context but the chosen one and the relays was freed. */
  lemma OthersReleased(c: IceController, chosen: nat, d: IceController)
    requires c.Table() && chosen < c.count && d == FreedBut(c, OthersKept(c, chosen), c.count)
    ensures d.Table() && d.ServedFrom(c) && d == c.(sockets := d.sockets, open := d.open)
    ensures forall k :: 0 <= k < c.count ==>
              d.sockets[k] == FreedSlot(c.sockets[k], k == chosen || c.sockets[k].local == Some(Relay))
  {
    FreedButServes(c, OthersKept(c, chosen), d);
  }

  /** Every slot freed. */
  lemma AllFreed(c: IceController, d: IceController)
    requires c.Table() && d == FreedBut(c, {}, |c.sockets|)
    ensures d.Table() && d == c.(sockets := d.sockets, open := map[])
    ensures forall k :: 0 <= k < |c.sockets| ==> d.sockets[k] == FreedSlot(c.sockets[k], false)
  {
    FreedButTable(c, {}, |c.sockets|);
    FreedButFrame(c, {}, |c.sockets|);
    forall k | 0 <= k < |c.sockets| ensures d.sockets[k] == FreedSlot(c.sockets[k], false) {
      FreedButAt(c, {}, |c.sockets|, k);
    }
    UnusedHoldsNothing(d.sockets, d.count, d.open);
  }

  // ------------------------------------------------------------------ serving slots

  /** What a step of its TLS handshake makes of a slot. */
  function TlsState(answer: TlsAnswer): SocketState {
    match answer
    case TlsWaiting => InProgress
    case TlsDone(added) => if added then Created else Unused
    case TlsFailed => Unused
  }

  /** What sends make of slot `k`: a broken one closes it. */
  function SentState(s: Socket, k: nat, sends: seq<(nat, SendAnswer)>): SocketState {
    if s.local.Some? && (k, Broken) in sends then Unused else s.state
  }

  /** What a pass makes of a slot: a TLS handshake goes on, or a broken request closes the slot. */
  function PassState(s: Socket, answer: SlotAnswer): SocketState {
    if s.state == InProgress then TlsState(answer.tls)
    else if s.local.Some? && answer.request == Some(Broken) then Unused
    else s.state
  }

  /** A slot without an answer has nothing to do yet. */
  function AnswerAt(slots: seq<SlotAnswer>, k: nat): SlotAnswer {
    if k < |slots| then slots[k] else SlotAnswer(TlsWaiting, None)
  }

  ghost predicate Sent(before: seq<Socket>, after: seq<Socket>, sends: seq<(nat, SendAnswer)>) {
    && |before| == |after|
    && forall k :: 0 <= k < |after| ==>
         after[k].local == before[k].local && after[k].state == SentState(before[k], k, sends)
  }

  ghost predicate Passed(before: seq<Socket>, after: seq<Socket>, slots: seq<SlotAnswer>) {
    && |before| == |after|
    && forall k :: 0 <= k < |after| ==> after[k].state == PassState(before[k], AnswerAt(slots, k))
  }

  /** Sends and then a pass. */
  ghost predicate Stepped(
    before: seq<Socket>, after: seq<Socket>, sends: seq<(nat, SendAnswer)>, slots: seq<SlotAnswer>)
  {
    && |before| == |after|
    && forall k :: 0 <= k < |after| ==>
         after[k].state == PassState(before[k].(state := SentState(before[k], k, sends)), AnswerAt(slots, k))
  }

  lemma SentNext(a: seq<Socket>, b: seq<Socket>, c: seq<Socket>, sends: seq<(nat, SendAnswer)>, k: nat)
    requires k < |sends| && Sent(a, b, sends[..k]) && Sent(b, c, [sends[k]])
    ensures Sent(a, c, sends[..k + 1])
  {
    assert sends[..k + 1] == sends[..k] + [sends[k]];
  }

  /** Nothing happens to a slot past the count, or without a candidate. */
  lemma NotSent(c: IceController, i: nat, answer: SendAnswer)
    requires c.Table() && (i >= c.count || c.sockets[i].local.None?)
    ensures Sent(c.sockets, c.sockets, [(i, answer)])
  {
    if i < |c.sockets| {
      assert SlotValid(c.sockets[i], i, c.count, c.open);
    }
  }

  /** Slots past the count are closed, and no pass touches them. */
  lemma RestIdle(c: IceController, slots: seq<SlotAnswer>)
    requires c.Table()
    ensures forall k :: c.count <= k < |c.sockets| ==> c.sockets[k].state == PassState(c.sockets[k], AnswerAt(slots, k))
  {
    forall k | c.count <= k < |c.sockets|
      ensures c.sockets[k].state == PassState(c.sockets[k], AnswerAt(slots, k))
    {
      assert SlotValid(c.sockets[k], k, c.count, c.open);
    }
  }

  lemma SentAndPassed(a: seq<Socket>, b: seq<Socket>, c: seq<Socket>, sends: seq<(nat, SendAnswer)>,
                      slots: seq<SlotAnswer>)
    requires Sent(a, b, sends) && Passed(b, c, slots)
    ensures Stepped(a, c, sends, slots)
  {
  }

  // ------------------------------------------------------------------ opening slots

  /** The slot at the count put into use. */
  function Opened(c: IceController, slot: Socket): IceController
    requires c.count < |c.sockets|
  {
    c.(sockets := c.sockets[c.count := slot], count := c.count + 1, open := c.open[slot.fd := c.count])
  }

  /** `socket` gives -1 or a descriptor that is not held. */
  predicate Given(c: IceController, fd: int) {
    fd >= 0 && fd !in c.open
  }

  /** A UDP context: a failed `socket` uses up a slot, a failed bind gives it back, a refused candidate
      leaves it counted and closed. */
  function GatheredUdp(c: IceController, g: Gathering): IceController
    requires |c.sockets| == MAX_SOCKETS
  {
    if c.count >= MAX_SOCKETS || (Given(c, g.fd) && !g.up) then c
    else if !Given(c, g.fd) || !g.added then c.(count := c.count + 1)
    else Opened(c, c.sockets[c.count].(fd := g.fd, tls := false, local := Some(g.kind),
                                       state := if g.kind == Host then Gathered else Created))
  }

  /** A TLS context: a failed connection gives the slot back, one that is not up yet is in progress, and a
      refused candidate leaves the slot counted and closed. */
  function GatheredTls(c: IceController, g: Gathering): IceController
    requires |c.sockets| == MAX_SOCKETS
  {
    if c.count >= MAX_SOCKETS || !Given(c, g.fd) then c
    else if !g.up then Opened(c, c.sockets[c.count].(fd := g.fd, tls := true, local := None, state := InProgress))
    else if !g.added then c.(count := c.count + 1)
    else Opened(c, c.sockets[c.count].(fd := g.fd, tls := true, local := Some(Relay), state := Created))
  }

  function GatheredOne(c: IceController, g: Gathering): (d: IceController)
    requires |c.sockets| == MAX_SOCKETS
    ensures |d.sockets| == MAX_SOCKETS
  {
    if g.kind == Relay && g.tls then GatheredTls(c, g)
    else if g.kind != PeerReflexive then GatheredUdp(c, g)
    else c
  }

  function GatheredAll(c: IceController, gs: seq<Gathering>): (d: IceController)
    requires |c.sockets| == MAX_SOCKETS
    ensures |d.sockets| == MAX_SOCKETS
  {
    if gs == [] then c else GatheredOne(GatheredAll(c, gs[..|gs| - 1]), gs[|gs| - 1])
  }

  lemma CountedTable(c: IceController)
    requires c.Table() && c.count < MAX_SOCKETS
    ensures c.(count := c.count + 1).Table()
  {
    var d := c.(count := c.count + 1);
    forall k | 0 <= k < MAX_SOCKETS ensures SlotValid(d.sockets[k], k, d.count, d.open) {
      assert SlotValid(c.sockets[k], k, c.count, c.open);
    }
  }

  lemma OpenedTable(c: IceController, slot: Socket)
    requires c.Table() && c.count < MAX_SOCKETS && Given(c, slot.fd)
    requires slot.state != Unused && (slot.state == InProgress || slot.local.Some?)
    ensures Opened(c, slot).Table()
  {
    OpenKeepsTable(c.sockets, c.count, c.open, slot);
  }

  lemma GatheredUdpTable(c: IceController, g: Gathering)
    requires c.Table()
    ensures GatheredUdp(c, g).Table()
  {
    if c.count < MAX_SOCKETS {
      CountedTable(c);
      if Given(c, g.fd) {
        OpenedTable(c, c.sockets[c.count].(fd := g.fd, tls := false, local := Some(g.kind),
                                           state := if g.kind == Host then Gathered else Created));
      }
    }
  }

  lemma GatheredTlsTable(c: IceController, g: Gathering)
    requires c.Table()
    ensures GatheredTls(c, g).Table()
  {
    if c.count < MAX_SOCKETS && Given(c, g.fd) {
      CountedTable(c);
      OpenedTable(c, c.sockets[c.count].(fd := g.fd, tls := true, local := None, state := InProgress));
      OpenedTable(c, c.sockets[c.count].(fd := g.fd, tls := true, local := Some(Relay), state := Created));
    }
  }

  lemma GatheredOneTable(c: IceController, g: Gathering)
    requires c.Table()
    ensures var d := GatheredOne(c, g);
            && d.Table() && c.count <= d.count
            && d == c.(count := d.count, sockets := d.sockets, open := d.open)
  {
    GatheredUdpTable(c, g);
    GatheredTlsTable(c, g);
  }

  lemma {:induction false} GatheredAllTable(c: IceController, gs: seq<Gathering>)
    requires c.Table()
    ensures var d := GatheredAll(c, gs);
            && d.Table() && c.count <= d.count
            && d == c.(count := d.count, sockets := d.sockets, open := d.open)
    decreases |gs|
  {
    if gs != [] {
      GatheredAllTable(c, gs[..|gs| - 1]);
      GatheredOneTable(GatheredAll(c, gs[..|gs| - 1]), gs[|gs| - 1]);
    }
  }

  // ------------------------------------------------------------------ what an attempt leaves

  /** The attempt opens a context: there is a slot and a descriptor, the socket is bound or connected, and the
      candidate is taken. */
  predicate Succeeds(c: IceController, g: Gathering) {
    c.count < 100 && g.kind != PeerReflexive && g.fd >= 0 && g.fd !in c.open && g.up && g.added
  }

  /** The attempt opens a TLS context whose connection is not up yet. */
  predicate Pends(c: IceController, g: Gathering) {
    c.count < 100 && g.kind == Relay && g.tls && g.fd >= 0 && g.fd !in c.open && !g.up
  }

  /** The attempt fails and leaves its slot counted: its candidate is refused, or `socket` fails for UDP. */
  predicate UsesUp(c: IceController, g: Gathering) {
    && c.count < 100 && g.kind != PeerReflexive
    && if g.fd >= 0 && g.fd !in c.open then g.up && !g.added else !(g.kind == Relay && g.tls)
  }

  /** A successful attempt leaves a context of its own kind behind the others, which holds its descriptor; any other
      leaves every slot and descriptor as it was, but for a TLS context in progress. */
  lemma AttemptLeaves(c: IceController, g: Gathering)
    requires c.Table()
    ensures var d := GatheredOne(c, g);
            && (forall k :: 0 <= k < |c.sockets| && k != c.count ==> d.sockets[k] == c.sockets[k])
            && (Succeeds(c, g) ==>
                  && d.count == c.count + 1 && d.open == c.open[g.fd := c.count]
                  && d.sockets[c.count].local == Some(g.kind) && d.sockets[c.count].fd == g.fd
                  && d.sockets[c.count].state == (if g.kind == Host then Gathered else Created)
                  && (d.sockets[c.count].tls <==> g.kind == Relay && g.tls))
            && (Pends(c, g) ==>
                  && d.count == c.count + 1 && d.open == c.open[g.fd := c.count]
                  && d.sockets[c.count].local == None && d.sockets[c.count].fd == g.fd
                  && d.sockets[c.count].state == InProgress && d.sockets[c.count].tls)
            && (!Succeeds(c, g) && !Pends(c, g) ==>
                  && d.sockets == c.sockets && d.open == c.open
                  && d.count == c.count + if UsesUp(c, g) then 1 else 0)
  {
  }

  /** A successful relay attempt leaves a context that lingers. */
  lemma RelayLingers(c: IceController, g: Gathering)
    requires c.Table() && Succeeds(c, g) && g.kind == Relay
    ensures Lingers(GatheredOne(c, g).sockets[c.count])
  {
    AttemptLeaves(c, g);
  }

  lemma OneKeepsFree(c: IceController, g: Gathering)
    requires c.Table() && g.kind != Relay && !AnyLingers(c.sockets)
    ensures !AnyLingers(GatheredOne(c, g).sockets)
  {
    AttemptLeaves(c, g);
    var d := GatheredOne(c, g);
    forall k | 0 <= k < |d.sockets| ensures !Lingers(d.sockets[k]) {
      assert !Lingers(c.sockets[k]);
    }
  }

  /** Attempts none of which is for a relay leave no context that lingers. */
  lemma {:induction false} NoRelayNoneLingers(c: IceController, gs: seq<Gathering>)
    requires c.Table() && !AnyLingers(c.sockets) && forall k :: 0 <= k < |gs| ==> gs[k].kind != Relay
    ensures !AnyLingers(GatheredAll(c, gs).sockets)
    decreases |gs|
  {
    if gs != [] {
      var init := gs[..|gs| - 1];
      NoRelayNoneLingers(c, init);
      GatheredAllTable(c, init);
      OneKeepsFree(GatheredAll(c, init), gs[|gs| - 1]);
    }
  }

  /** A descriptor that is opened and closed again leaves what was held. */
  lemma OpenAndClose(open: map<int, nat>, fd: int, i: nat)
    requires fd !in open
    ensures open[fd := i] - {fd} == open
  {
  }
}
