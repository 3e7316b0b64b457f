/** Putting fragmented text messages together (section 5.4 of RFC 6455). */
module WebsocketReceive {
  import opened Basics

  const RX_BUFFER_LENGTH: nat := 12 * 1024

  /** One receive callback. */
  datatype Frame = Frame(data: string, binary: bool, first: bool, final: bool)

  /** What a callback leads to: `Refuse` makes the library close the connection. */
  datatype Outcome = Nothing | Deliver(text: string) | Refuse

  /** The callback on the text held so far. Binary and empty fragments leave everything as it is. */
  function Take(held: string, frame: Frame): (string, Outcome) {
    if frame.binary || frame.data == "" then (held, Nothing)
    else
      var base := if frame.first then "" else held;
      if |base| + |frame.data| > RX_BUFFER_LENGTH then (base, Refuse)
      else (base + frame.data, if frame.final then Deliver(base + frame.data) else Nothing)
  }

  class Receiver {
    const buffer: array<char>
    var fill: nat

    ghost predicate Valid()
      reads this
    {
      buffer.Length == RX_BUFFER_LENGTH && fill <= RX_BUFFER_LENGTH
    }

    ghost function Held(): string
      requires Valid()
      reads this, buffer
    {
      buffer[..fill]
    }

    constructor ()
      ensures Valid() && Held() == "" && fresh(buffer)
    {
      buffer := new char[RX_BUFFER_LENGTH];
      fill := 0;
    }

    method Receive(frame: Frame) returns (outcome: Outcome)
      requires Valid()
      modifies this, buffer
      ensures Valid() && (Held(), outcome) == Take(old(Held()), frame)
    {
      outcome := Nothing;
      if !frame.binary && |frame.data| > 0 {
        if frame.first {
          fill := 0;
        }
        if fill + |frame.data| <= RX_BUFFER_LENGTH {
          Copy(frame.data);
          if frame.final {
            outcome := Deliver(buffer[..fill]);
          }
        } else {
          outcome := Refuse;
        }
      }
    }

    /** Appends `data` to the text held. */
    method Copy(data: string)
      requires Valid() && fill + |data| <= RX_BUFFER_LENGTH
      modifies this, buffer
      ensures Valid() && Held() == old(Held()) + data
    {
      for i := 0 to |data|
        invariant Valid() && fill == old(fill)
        invariant buffer[..fill + i] == old(Held()) + data[..i]
      {
        buffer[fill + i] := data[i];
        assert data[..i + 1] == data[..i] + [data[i]];
      }
      fill := fill + |data|;
      assert data[..|data|] == data;
    }
  }

  // ------------------------------------------------------------------ whole messages

  /** The frames of a text message; `first` is false for what follows a first fragment. */
  function Frames(fragments: seq<string>, first: bool): seq<Frame> {
    if fragments == [] then []
    else [Frame(fragments[0], false, first, |fragments| == 1)] + Frames(fragments[1..], false)
  }

  /** The callbacks for `frames`, up to the first that delivers or refuses. */
  function Feed(held: string, frames: seq<Frame>): (string, Outcome)
    decreases |frames|
  {
    if frames == [] then (held, Nothing)
    else
      var (held', outcome) := Take(held, frames[0]);
      if outcome != Nothing then (held', outcome) else Feed(held', frames[1..])
  }

  /** The frames that are not binary. */
  function TextOnly(frames: seq<Frame>): seq<Frame> {
    if frames == [] then []
    else (if frames[0].binary then [] else [frames[0]]) + TextOnly(frames[1..])
  }

  /** Binary frames between the fragments change neither the text held nor what is delivered. */
  lemma {:induction false} BinaryIgnored(held: string, frames: seq<Frame>)
    ensures Feed(held, frames) == Feed(held, TextOnly(frames))
    decreases |frames|
  {
    if frames != [] {
      var (held', outcome) := Take(held, frames[0]);
      if frames[0].binary {
        assert TextOnly(frames) == TextOnly(frames[1..]);
      } else {
        assert TextOnly(frames)[1..] == TextOnly(frames[1..]);
      }
      if outcome == Nothing {
        BinaryIgnored(held', frames[1..]);
      }
    }
  }

  lemma {:induction false} RestOutcome(held: string, fragments: seq<string>)
    requires |held| <= RX_BUFFER_LENGTH
    ensures var total := held + Flatten(fragments);
            var result := Feed(held, Frames(fragments, false));
            && (|total| > RX_BUFFER_LENGTH ==> result.1 == Refuse)
            && (|total| <= RX_BUFFER_LENGTH ==>
                  result == (total, if fragments != [] && fragments[|fragments| - 1] != ""
                                    then Deliver(total) else Nothing))
    decreases |fragments|
  {
    if fragments == [] {
      assert held + "" == held;
    } else {
      var f, rest := fragments[0], fragments[1..];
      assert Frames(fragments, false)[1..] == Frames(rest, false);
      assert held + (f + Flatten(rest)) == (held + f) + Flatten(rest);
      assert f == "" ==> held + f == held;
      assert Flatten([]) == "" && (held + f) + "" == held + f;
      if |held| + |f| <= RX_BUFFER_LENGTH {
        RestOutcome(held + f, rest);
      }
    }
  }

  /** What a message is added to: an empty first fragment is skipped together with the reset. */
  function Base(held: string, fragments: seq<string>): string
    requires fragments != []
  {
    if fragments[0] == "" then held else ""
  }

  /** The outcome of any text message. */
  lemma MessageOutcome(held: string, fragments: seq<string>)
    requires |held| <= RX_BUFFER_LENGTH && fragments != []
    ensures var total := Base(held, fragments) + Flatten(fragments);
            var result := Feed(held, Frames(fragments, true));
            && (|total| > RX_BUFFER_LENGTH ==> result.1 == Refuse)
            && (|total| <= RX_BUFFER_LENGTH ==>
                  result == (total, if fragments[|fragments| - 1] != "" then Deliver(total) else Nothing))
  {
    RestOutcome(Base(held, fragments), fragments);
    assert Frames(fragments, true)[1..] == Frames(fragments[1..], false) == Frames(fragments, false)[1..];
  }

  /** A message is handed over as the concatenation of its fragments exactly when it fits, does not end
      with an empty fragment, and does not begin with one while earlier text is held. */
  lemma ExactDelivery(held: string, fragments: seq<string>)
    requires |held| <= RX_BUFFER_LENGTH && fragments != []
    ensures Feed(held, Frames(fragments, true)).1 == Deliver(Flatten(fragments)) <==>
              && |Flatten(fragments)| <= RX_BUFFER_LENGTH
              && fragments[|fragments| - 1] != ""
              && (fragments[0] != "" || held == "")
  {
    MessageOutcome(held, fragments);
    assert "" + Flatten(fragments) == Flatten(fragments);
  }

  predicate NonEmpty(fragments: seq<string>) {
    fragments != [] && forall i :: 0 <= i < |fragments| ==> fragments[i] != ""
  }

  /** The callbacks for the frames of one message and the binary ones between them. */
  method ReceiveMessage(receiver: Receiver, arrival: seq<Frame>, ghost fragments: seq<string>)
    returns (outcome: Outcome)
    requires receiver.Valid() && TextOnly(arrival) == Frames(fragments, true)
    modifies receiver, receiver.buffer
    ensures receiver.Valid()
    ensures (receiver.Held(), outcome) == Feed(old(receiver.Held()), Frames(fragments, true))
  {
    outcome := Nothing;
    var frames := arrival;
    BinaryIgnored(receiver.Held(), frames);
    ghost var whole := Feed(receiver.Held(), frames);
    while outcome == Nothing && frames != []
      invariant receiver.Valid()
      invariant whole == if outcome == Nothing then Feed(receiver.Held(), frames) else (receiver.Held(), outcome)
      decreases |frames|
    {
      outcome := receiver.Receive(frames[0]);
      frames := frames[1..];
    }
  }

  /** A message in non-empty fragments is handed over whole, or refused when it is too long. */
  method ReceiveWhole(receiver: Receiver, arrival: seq<Frame>, ghost message: seq<string>)
    returns (outcome: Outcome)
    requires receiver.Valid() && TextOnly(arrival) == Frames(message, true) && NonEmpty(message)
    modifies receiver, receiver.buffer
    ensures receiver.Valid()
    ensures outcome == if |Flatten(message)| <= RX_BUFFER_LENGTH then Deliver(Flatten(message)) else Refuse
  {
    MessageOutcome(receiver.Held(), message);
    assert "" + Flatten(message) == Flatten(message);
    outcome := ReceiveMessage(receiver, arrival, message);
  }

  /** Any sequence of messages in non-empty fragments, with any binary frames among them: each is handed
      over whole, up to the first that is too long for the buffer, which is refused. */
  method Run(arrivals: seq<seq<Frame>>, ghost messages: seq<seq<string>>)
    returns (delivered: seq<string>, refused: bool)
    requires |arrivals| == |messages|
    requires forall m :: 0 <= m < |messages| ==> TextOnly(arrivals[m]) == Frames(messages[m], true)
    requires forall m :: 0 <= m < |messages| ==> NonEmpty(messages[m])
    ensures |delivered| <= |messages| && (refused <==> |delivered| < |messages|)
    ensures forall m :: 0 <= m < |delivered| ==>
              delivered[m] == Flatten(messages[m]) && |delivered[m]| <= RX_BUFFER_LENGTH
    ensures refused ==> |Flatten(messages[|delivered|])| > RX_BUFFER_LENGTH
  {
    var receiver := new Receiver();
    delivered, refused := [], false;
    while !refused && |delivered| < |arrivals|
      invariant fresh(receiver) && fresh(receiver.buffer) && receiver.Valid()
      invariant |delivered| <= |messages| && (refused ==> |delivered| < |messages|)
      invariant forall m :: 0 <= m < |delivered| ==>
                  delivered[m] == Flatten(messages[m]) && |delivered[m]| <= RX_BUFFER_LENGTH
      invariant refused ==> |Flatten(messages[|delivered|])| > RX_BUFFER_LENGTH
      decreases |messages| - |delivered|, !refused
    {
      var outcome := ReceiveWhole(receiver, arrivals[|delivered|], messages[|delivered|]);
      if outcome.Deliver? {
        delivered := delivered + [outcome.text];
      } else {
        refused := true;
      }
    }
  }
}
