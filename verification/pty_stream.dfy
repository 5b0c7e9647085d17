/** The two relay loops of a terminal stream: the sender numbers its payloads, the receiver delivers them in order. */
module PtyStream {
  import opened Wrappers
  import opened PtyFrame

  // ---------- The sender ----------

  /** The frames that a sender writes, having written `sent` before: it stops at the first payload that cannot be
      encoded, and its counter wraps around. */
  function SentFrames(direction: Octet, payloads: seq<seq<Octet>>, sent: nat): seq<seq<Octet>>
    decreases |payloads|
  {
    if payloads == [] then [] else
      var frame := DataFrame(direction, (sent + 1) % TWO_64, payloads[0]);
      if !frame.Valid() then [] else [Frame(frame)] + SentFrames(direction, payloads[1..], sent + 1)
  }

  lemma SentOneMore(direction: Octet, payloads: seq<seq<Octet>>, sent: nat)
    requires payloads != []
    ensures var frame := DataFrame(direction, (sent + 1) % TWO_64, payloads[0]);
      SentFrames(direction, payloads, sent)
        == if frame.Valid() then [Frame(frame)] + SentFrames(direction, payloads[1..], sent + 1) else []
  {
  }

  lemma Wrapped(n: nat)
    ensures (n % TWO_64 + 1) % TWO_64 == (n + 1) % TWO_64
  {
  }

  method Send(direction: Octet, payloads: seq<seq<Octet>>) returns (frames: seq<seq<Octet>>)
    ensures frames == SentFrames(direction, payloads, 0)
  {
    hide Frame, SentFrames;
    frames := [];
    var sequence: Uint64 := 0;
    assert payloads[0..] == payloads;
    for i := 0 to |payloads|
      invariant sequence == i % TWO_64
      invariant SentFrames(direction, payloads, 0) == frames + SentFrames(direction, payloads[i..], i)
    {
      SentOneMore(direction, payloads[i..], i);
      assert payloads[i..][0] == payloads[i] && payloads[i..][1..] == payloads[i + 1..];
      Wrapped(i);
      sequence := (sequence + 1) % TWO_64;
      var frame := Encode(direction, sequence, payloads[i]);
      if frame.Err? {
        return;
      }
      frames := frames + [frame.value];
    }
    SentNothing(direction, |payloads|);
  }

  /** The payloads that can be sent, as long as the counter does not wrap. */
  predicate Sendable(direction: Octet, payloads: seq<seq<Octet>>) {
    && direction in {DATA_INPUT, DATA_OUTPUT} && |payloads| < TWO_64
    && forall i :: 0 <= i < |payloads| ==> |payloads[i]| <= MAX_FRAME_DATA
  }

  /** The payloads are numbered 1, 2, 3, … in order. */
  lemma {:induction false} SendNumbers(direction: Octet, payloads: seq<seq<Octet>>, sent: nat)
    requires direction in {DATA_INPUT, DATA_OUTPUT} && sent + |payloads| < TWO_64
    requires forall i :: 0 <= i < |payloads| ==> |payloads[i]| <= MAX_FRAME_DATA
    ensures |SentFrames(direction, payloads, sent)| == |payloads|
    ensures forall i :: 0 <= i < |payloads| ==>
      SentFrames(direction, payloads, sent)[i] == Frame(DataFrame(direction, sent + 1 + i, payloads[i]))
    decreases |payloads|
  {
    hide Frame, SentFrames;
    if payloads != [] {
      SentOneMore(direction, payloads, sent);
      assert (sent + 1) % TWO_64 == sent + 1;
      SendNumbers(direction, payloads[1..], sent + 1);
    } else {
      SentNothing(direction, sent);
    }
  }

  lemma SentNothing(direction: Octet, sent: nat)
    ensures SentFrames(direction, [], sent) == []
  {
  }

  // ---------- The receiver ----------

  datatype Message = Binary(data: seq<Octet>) | Control(frame: Option<ControlFrame>) | Other

  /** The agent's end checks the numbers of control frames and applies resizes; the hub's end only heeds close and
      error frames. */
  datatype End = Agent | Hub

  datatype Receiver = Receiver(
    next: Uint64, controlNext: Uint64, delivered: seq<seq<Octet>>, resizes: seq<(nat, nat)>, stopped: bool)

  const START := Receiver(0, 0, [], [], false)

  function Stop(r: Receiver): Receiver { r.(stopped := true) }

  function ReceiveDataStep(r: Receiver, direction: Octet, data: seq<Octet>): Receiver {
    var frame := Decode(data);
    if frame.Err? || frame.value.direction != direction then Stop(r) else
      var (next, accepted) := AcceptStep(r.next, frame.value.sequence);
      var counted := r.(next := next);
      match accepted
      case Gap => Stop(counted)
      case Duplicate => counted
      case Fresh => counted.(delivered := r.delivered + [frame.value.payload])
  }

  function ReceiveControlStep(r: Receiver, end: End, frame: Option<ControlFrame>): Receiver {
    if frame.None? || !frame.value.Valid() then Stop(r)
    else if end.Hub? then (if frame.value.kind == "resize" then r else Stop(r))
    else
      var (next, accepted) := AcceptStep(r.controlNext, frame.value.sequence);
      var counted := r.(controlNext := next);
      match accepted
      case Gap => Stop(counted)
      case Duplicate => counted
      case Fresh =>
        if frame.value.kind == "resize" then counted.(resizes := r.resizes + [(frame.value.cols, frame.value.rows)])
        else Stop(counted)
  }

  function ReceiveStep(r: Receiver, end: End, direction: Octet, message: Message): Receiver {
    if r.stopped then r else
      match message
      case Binary(data) => ReceiveDataStep(r, direction, data)
      case Control(frame) => ReceiveControlStep(r, end, frame)
      case Other => Stop(r)
  }

  function Received(end: End, direction: Octet, messages: seq<Message>): Receiver {
    if messages == [] then START
    else ReceiveStep(Received(end, direction, messages[..|messages| - 1]), end, direction, messages[|messages| - 1])
  }

  lemma {:induction false} StoppedStays(end: End, direction: Octet, messages: seq<Message>, n: nat)
    requires n <= |messages| && Received(end, direction, messages[..n]).stopped
    ensures Received(end, direction, messages) == Received(end, direction, messages[..n])
  {
    if n < |messages| {
      assert messages[..|messages| - 1][..n] == messages[..n];
      StoppedStays(end, direction, messages[..|messages| - 1], n);
    } else {
      assert messages[..n] == messages;
    }
  }

  method Receive(end: End, direction: Octet, messages: seq<Message>)
    returns (delivered: seq<seq<Octet>>, resizes: seq<(nat, nat)>)
    ensures delivered == Received(end, direction, messages).delivered
    ensures resizes == Received(end, direction, messages).resizes
  {
    hide Decode;
    delivered, resizes := [], [];
    var inputSequence := new PTYSequence();
    var controlSequence := new PTYSequence();
    for i := 0 to |messages|
      invariant inputSequence != controlSequence && fresh(inputSequence) && fresh(controlSequence)
      invariant Received(end, direction, messages[..i])
             == Receiver(inputSequence.next, controlSequence.next, delivered, resizes, false)
    {
      assert messages[..i + 1][..i] == messages[..i];
      ghost var after := Received(end, direction, messages[..i + 1]);
      if after.stopped { StoppedStays(end, direction, messages, i + 1); }
      match messages[i]
      case Binary(data) =>
        var frame := Decode(data);
        if frame.Err? || frame.value.direction != direction {
          return;
        }
        var accepted := inputSequence.Accept(frame.value.sequence);
        if accepted == Gap {
          return;
        }
        if accepted == Fresh {
          delivered := delivered + [frame.value.payload];
        }
      case Control(frame) =>
        if frame.None? || !frame.value.Valid() {
          return;
        }
        if end == Hub {
          if frame.value.kind != "resize" {
            return;
          }
        } else {
          var accepted := controlSequence.Accept(frame.value.sequence);
          if accepted == Gap {
            return;
          }
          if accepted == Fresh {
            if frame.value.kind != "resize" {
              return;
            }
            resizes := resizes + [(frame.value.cols, frame.value.rows)];
          }
        }
      case Other =>
        return;
    }
    assert messages[..|messages|] == messages;
  }

  // ---------- Order survives the channel ----------

  /** The channel may drop, repeat and reorder the sender's frames, and mix any control messages in. */
  ghost predicate Carries(frames: seq<seq<Octet>>, messages: seq<Message>) {
    forall i :: 0 <= i < |messages| && messages[i].Binary? ==> messages[i].data in frames
  }

  /** A receiver that has accepted `count` numbers accepts the next one only. */
  lemma AcceptsInOrder(next: Uint64, count: nat, value: Uint64)
    requires Expected(next) == count + 1 && count + 2 < TWO_64 + 1
    ensures var (next', accepted) := AcceptStep(next, value);
      && (accepted == Fresh <==> value == count + 1)
      && (accepted != Fresh ==> Expected(next') == count + 1)
      && (accepted == Fresh ==> next' == (count + 2) % TWO_64)
      && (accepted == Fresh && count + 2 < TWO_64 ==> Expected(next') == count + 2)
  {
  }

  ghost predicate InStep(r: Receiver, payloads: seq<seq<Octet>>) {
    r.delivered <= payloads && Expected(r.next) == |r.delivered| + 1
  }

  lemma DataKeepsInStep(r: Receiver, direction: Octet, payloads: seq<seq<Octet>>, i: nat)
    requires direction in {DATA_INPUT, DATA_OUTPUT} && |payloads| < TWO_64 - 1 && InStep(r, payloads)
    requires i < |payloads| && |payloads[i]| <= MAX_FRAME_DATA
    ensures InStep(ReceiveDataStep(r, direction, Frame(DataFrame(direction, 1 + i, payloads[i]))), payloads)
  {
    hide Decode, Frame, AcceptStep, Expected;
    DecodeFrame(DataFrame(direction, 1 + i, payloads[i]));
    AcceptsInOrder(r.next, |r.delivered|, 1 + i);
  }

  lemma ControlKeepsData(r: Receiver, end: End, frame: Option<ControlFrame>)
    ensures var r' := ReceiveControlStep(r, end, frame);
      r'.delivered == r.delivered && r'.next == r.next
  {
  }

  lemma WhichFrame(direction: Octet, payloads: seq<seq<Octet>>, data: seq<Octet>) returns (i: nat)
    requires Sendable(direction, payloads) && data in SentFrames(direction, payloads, 0)
    ensures i < |payloads| && data == Frame(DataFrame(direction, 1 + i, payloads[i]))
  {
    hide Frame, SentFrames;
    SendNumbers(direction, payloads, 0);
    i :| 0 <= i < |payloads| && data == SentFrames(direction, payloads, 0)[i];
  }

  lemma {:induction false} PrefixSoFar(end: End, direction: Octet, payloads: seq<seq<Octet>>, messages: seq<Message>)
    requires Sendable(direction, payloads) && |payloads| < TWO_64 - 1
    requires Carries(SentFrames(direction, payloads, 0), messages)
    ensures InStep(Received(end, direction, messages), payloads)
  {
    if messages != [] {
      hide ReceiveDataStep, ReceiveControlStep, Frame, SentFrames, AcceptStep, Expected;
      var before, last := messages[..|messages| - 1], messages[|messages| - 1];
      PrefixSoFar(end, direction, payloads, before);
      if last.Binary? {
        var i := WhichFrame(direction, payloads, last.data);
        DataKeepsInStep(Received(end, direction, before), direction, payloads, i);
      } else if last.Control? {
        ControlKeepsData(Received(end, direction, before), end, last.frame);
      }
    }
  }

  /** The payloads that the sender really sends. */
  function Sent(direction: Octet, payloads: seq<seq<Octet>>): (sent: seq<seq<Octet>>)
    ensures |sent| == |SentFrames(direction, payloads, 0)|
  {
    SendsNoMore(direction, payloads, 0);
    payloads[..|SentFrames(direction, payloads, 0)|]
  }

  lemma {:induction false} SendsNoMore(direction: Octet, payloads: seq<seq<Octet>>, sent: nat)
    ensures |SentFrames(direction, payloads, sent)| <= |payloads|
    decreases |payloads|
  {
    hide Frame;
    if payloads != [] { SendsNoMore(direction, payloads[1..], sent + 1); }
  }

  /** Sending stops before an oversized payload and before the counter wraps around. */
  lemma {:induction false} SendsWhatItCan(direction: Octet, payloads: seq<seq<Octet>>, sent: nat)
    requires sent < TWO_64
    ensures var n := |SentFrames(direction, payloads, sent)|;
      && n <= |payloads| && sent + n < TWO_64
      && (n > 0 ==> direction in {DATA_INPUT, DATA_OUTPUT})
      && (forall i :: 0 <= i < n ==> |payloads[i]| <= MAX_FRAME_DATA)
      && SentFrames(direction, payloads[..n], sent) == SentFrames(direction, payloads, sent)
    decreases |payloads|
  {
    hide Frame, SentFrames;
    SentNothing(direction, sent);
    if payloads != [] {
      SentOneMore(direction, payloads, sent);
      var n := |SentFrames(direction, payloads, sent)|;
      if n > 0 {
        assert sent + 1 < TWO_64;
        SendsWhatItCan(direction, payloads[1..], sent + 1);
        SentOneMore(direction, payloads[..n], sent);
        assert payloads[..n][1..] == payloads[1..][..n - 1];
      } else {
        assert payloads[..0] == [];
      }
    } else {
      assert payloads[..0] == payloads;
    }
  }

  /** Whatever the channel does, the receiver delivers a prefix of what was sent. */
  ghost predicate DeliversPrefixes(end: End, direction: Octet, payloads: seq<seq<Octet>>) {
    forall messages: seq<Message> :: Carries(SentFrames(direction, payloads, 0), messages) ==>
      Received(end, direction, messages).delivered <= Sent(direction, payloads)
  }

  function InOrder(frames: seq<seq<Octet>>): seq<Message> {
    seq(|frames|, i requires 0 <= i < |frames| => Binary(frames[i]))
  }

  lemma {:induction false} InOrderDelivers(end: End, direction: Octet, payloads: seq<seq<Octet>>, k: nat)
    requires Sendable(direction, payloads) && k <= |payloads|
    ensures |SentFrames(direction, payloads, 0)| == |payloads|
    ensures var r := Received(end, direction, InOrder(SentFrames(direction, payloads, 0))[..k]);
      !r.stopped && r.delivered == payloads[..k] && r.next == if k == 0 then 0 else (k + 1) % TWO_64
  {
    hide Decode, Frame, SentFrames, AcceptStep;
    SendNumbers(direction, payloads, 0);
    if k > 0 {
      var messages := InOrder(SentFrames(direction, payloads, 0));
      InOrderDelivers(end, direction, payloads, k - 1);
      DecodeFrame(DataFrame(direction, k, payloads[k - 1]));
      var r := Received(end, direction, messages[..k - 1]);
      assert Expected(r.next) == k;
      AcceptsInOrder(r.next, k - 1, k);
      assert messages[..k][..k - 1] == messages[..k - 1];
      assert payloads[..k] == payloads[..k - 1] + [payloads[k - 1]];
    }
  }

  /** After the whole number space, a repeated first frame is delivered again. */
  lemma WrapRepeats(end: End, direction: Octet, payloads: seq<seq<Octet>>) returns (messages: seq<Message>)
    requires Sendable(direction, payloads) && |payloads| == TWO_64 - 1
    ensures Carries(SentFrames(direction, payloads, 0), messages)
    ensures |Received(end, direction, messages).delivered| == |payloads| + 1
  {
    hide Decode, Frame, SentFrames;
    var frames := SentFrames(direction, payloads, 0);
    InOrderDelivers(end, direction, payloads, |payloads|);
    SendNumbers(direction, payloads, 0);
    messages := InOrder(frames) + [Binary(frames[0])];
    assert messages[..|messages| - 1] == InOrder(frames) == InOrder(frames)[..|payloads|];
    DecodeFrame(DataFrame(direction, 1, payloads[0]));
  }

  lemma {:induction false} NothingIsDelivered(end: End, direction: Octet, messages: seq<Message>)
    requires Carries([], messages)
    ensures Received(end, direction, messages).delivered == []
  {
    hide Decode;
    if messages != [] {
      NothingIsDelivered(end, direction, messages[..|messages| - 1]);
    }
  }

  /** Over a channel that drops, repeats and reorders frames, what is delivered is always a prefix of what was sent,
      exactly if fewer than 2^64 - 1 payloads were sent. */
  lemma DeliversPrefixesIff(end: End, direction: Octet, payloads: seq<seq<Octet>>)
    ensures DeliversPrefixes(end, direction, payloads) <==> |Sent(direction, payloads)| < TWO_64 - 1
  {
    hide Decode, Frame, SentFrames;
    var sent := Sent(direction, payloads);
    SendsWhatItCan(direction, payloads, 0);
    if |sent| == TWO_64 - 1 {
      var messages := WrapRepeats(end, direction, sent);
      assert !(Received(end, direction, messages).delivered <= sent);
    } else {
      forall messages: seq<Message> | Carries(SentFrames(direction, payloads, 0), messages)
        ensures Received(end, direction, messages).delivered <= sent
      {
        if sent == [] {
          NothingIsDelivered(end, direction, messages);
        } else {
          PrefixSoFar(end, direction, sent, messages);
        }
      }
    }
  }

  // ---------- Resizes ----------

  /** The control frames that announce the sizes, numbered from one. */
  function ResizeFrames(sizes: seq<(nat, nat)>): seq<ControlFrame>
    requires |sizes| < TWO_64
  {
    seq(|sizes|, i requires 0 <= i < |sizes| => ControlFrame(FRAME_VERSION, "resize", i + 1, sizes[i].0, sizes[i].1, ""))
  }

  ghost predicate ResizesInStep(r: Receiver, sizes: seq<(nat, nat)>) {
    r.resizes <= sizes && Expected(r.controlNext) == |r.resizes| + 1
  }

  lemma ControlKeepsInStep(r: Receiver, sizes: seq<(nat, nat)>, i: nat)
    requires |sizes| < TWO_64 - 1 && i < |sizes| && ResizesInStep(r, sizes)
    ensures ResizesInStep(ReceiveControlStep(r, Agent, Some(ResizeFrames(sizes)[i])), sizes)
  {
    hide AcceptStep, Expected;
    AcceptsInOrder(r.controlNext, |r.resizes|, i + 1);
  }

  /** The sizes that the agent applies are a prefix of those announced, whatever the channel does to the frames. */
  lemma {:induction false} ResizesArePrefix(direction: Octet, sizes: seq<(nat, nat)>, messages: seq<Message>)
    requires |sizes| < TWO_64 - 1
    requires forall i :: 0 <= i < |messages| && messages[i].Control? && messages[i].frame.Some? ==>
      messages[i].frame.value in ResizeFrames(sizes)
    ensures ResizesInStep(Received(Agent, direction, messages), sizes)
  {
    if messages != [] {
      hide ReceiveControlStep, Decode, AcceptStep, Expected, ResizeFrames;
      var last, before := messages[|messages| - 1], messages[..|messages| - 1];
      ResizesArePrefix(direction, sizes, before);
      if last.Control? && last.frame.Some? {
        assert last.frame.value in ResizeFrames(sizes);
        var i := ResizeIndex(sizes, last.frame.value);
        ControlKeepsInStep(Received(Agent, direction, before), sizes, i);
      } else if last.Control? {
        NoFrameStops(Received(Agent, direction, before));
      }
    }
  }

  lemma NoFrameStops(r: Receiver)
    ensures ReceiveControlStep(r, Agent, None) == Stop(r)
  {
  }

  lemma ResizeIndex(sizes: seq<(nat, nat)>, frame: ControlFrame) returns (i: nat)
    requires |sizes| < TWO_64 && frame in ResizeFrames(sizes)
    ensures i < |sizes| && frame == ResizeFrames(sizes)[i]
  {
    i :| 0 <= i < |sizes| && frame == ResizeFrames(sizes)[i];
  }

  ghost predicate SizesArePositive(r: Receiver) {
    forall i :: 0 <= i < |r.resizes| ==> r.resizes[i].0 > 0 && r.resizes[i].1 > 0
  }

  lemma StepAppliesPositive(r: Receiver, end: End, direction: Octet, message: Message)
    requires SizesArePositive(r)
    ensures SizesArePositive(ReceiveStep(r, end, direction, message))
  {
    hide Decode, AcceptStep;
  }

  /** The sizes that the agent applies are never empty, whatever it receives. */
  lemma {:induction false} AppliedSizesArePositive(end: End, direction: Octet, messages: seq<Message>)
    ensures SizesArePositive(Received(end, direction, messages))
  {
    hide ReceiveStep;
    if messages != [] {
      AppliedSizesArePositive(end, direction, messages[..|messages| - 1]);
      StepAppliesPositive(Received(end, direction, messages[..|messages| - 1]), end, direction, messages[|messages| - 1]);
    }
  }

  // ---------- One more message ----------

  /** The number that comes after `count` accepted ones; the counter skips zero when it wraps around. */
  function NumberAfter(count: nat): nat { count % (TWO_64 - 1) + 1 }

  lemma AcceptsNumberAfter(next: Uint64, count: nat, value: Uint64)
    requires Expected(next) == NumberAfter(count)
    ensures var (next', accepted) := AcceptStep(next, value);
      && accepted == (if value < NumberAfter(count) then Duplicate else if value > NumberAfter(count) then Gap else Fresh)
      && Expected(next') == NumberAfter(if accepted == Fresh then count + 1 else count)
  {
    hide NumberAfter;
    if value == NumberAfter(count) {
      NextNumber(count);
      assert (value + 1) % TWO_64 == if value == TWO_64 - 1 then 0 else value + 1;
    }
  }

  lemma NextNumber(count: nat)
    ensures NumberAfter(count + 1) == if NumberAfter(count) == TWO_64 - 1 then 1 else NumberAfter(count) + 1
  {
    var n := TWO_64 - 1;
    assert count == count / n * n + count % n;
    if count % n == n - 1 {
      assert count + 1 == (count / n + 1) * n;
      assert (count + 1) % n == 0;
    } else {
      Remainder(count + 1, count / n, count % n + 1);
    }
  }

  lemma Remainder(value: nat, quotient: nat, rest: nat)
    requires value == quotient * (TWO_64 - 1) + rest && rest < TWO_64 - 1
    ensures value % (TWO_64 - 1) == rest
  {
  }

  /** What has been delivered and applied says which numbers are expected. */
  ghost predicate CountersFollow(r: Receiver) {
    !r.stopped ==> Expected(r.next) == NumberAfter(|r.delivered|) && Expected(r.controlNext) == NumberAfter(|r.resizes|)
  }

  /** The message that a receiver takes as its next payload. */
  ghost predicate IsNextPayload(r: Receiver, direction: Octet, message: Message) {
    && message.Binary? && Decode(message.data).Ok?
    && Decode(message.data).value.direction == direction
    && Decode(message.data).value.sequence == NumberAfter(|r.delivered|)
  }

  ghost predicate IsNextSize(r: Receiver, end: End, message: Message) {
    && end == Agent && message.Control? && message.frame.Some? && message.frame.value.Valid()
    && message.frame.value.kind == "resize" && message.frame.value.sequence == NumberAfter(|r.resizes|)
  }

  /** The message that ends the loop: not a frame of the other side, a number too far ahead, or a close or error frame. */
  ghost predicate EndsLoop(r: Receiver, end: End, direction: Octet, message: Message) {
    match message
    case Binary(data) =>
      || Decode(data).Err? || Decode(data).value.direction != direction
      || Decode(data).value.sequence > NumberAfter(|r.delivered|)
    case Control(frame) =>
      || frame.None? || !frame.value.Valid()
      || (end == Hub && frame.value.kind != "resize")
      || (end == Agent && frame.value.sequence > NumberAfter(|r.resizes|))
      || (end == Agent && frame.value.sequence == NumberAfter(|r.resizes|) && frame.value.kind != "resize")
    case Other => true
  }

  /** What one message does to a receiver, in terms of what it has delivered and applied so far. */
  ghost predicate TakesMessage(r: Receiver, r': Receiver, end: End, direction: Octet, message: Message) {
    && r'.delivered == (if IsNextPayload(r, direction, message) then r.delivered + [Decode(message.data).value.payload]
                        else r.delivered)
    && r'.resizes == (if IsNextSize(r, end, message)
                      then r.resizes + [(message.frame.value.cols, message.frame.value.rows)] else r.resizes)
    && (r'.stopped <==> EndsLoop(r, end, direction, message))
  }

  lemma StepTakesMessage(r: Receiver, end: End, direction: Octet, message: Message)
    requires CountersFollow(r) && !r.stopped
    ensures var r' := ReceiveStep(r, end, direction, message);
      TakesMessage(r, r', end, direction, message) && CountersFollow(r')
  {
    match message
    case Binary(data) =>
      if Decode(data).Ok? { AcceptsNumberAfter(r.next, |r.delivered|, Decode(data).value.sequence); }
    case Control(frame) =>
      if frame.Some? && frame.value.Valid() { AcceptsNumberAfter(r.controlNext, |r.resizes|, frame.value.sequence); }
    case Other =>
    hide Decode, AcceptStep, Expected, NumberAfter;
  }

  lemma {:induction false} CountersAlwaysFollow(end: End, direction: Octet, messages: seq<Message>)
    ensures CountersFollow(Received(end, direction, messages))
  {
    hide ReceiveStep, CountersFollow;
    if messages == [] {
      StartFollows();
    } else {
      var before := Received(end, direction, messages[..|messages| - 1]);
      CountersAlwaysFollow(end, direction, messages[..|messages| - 1]);
      if before.stopped {
        StoppedIgnores(before, end, direction, messages[|messages| - 1]);
      } else {
        StepTakesMessage(before, end, direction, messages[|messages| - 1]);
      }
    }
  }

  lemma StartFollows()
    ensures CountersFollow(START)
  {
  }

  lemma StoppedIgnores(r: Receiver, end: End, direction: Octet, message: Message)
    requires r.stopped
    ensures ReceiveStep(r, end, direction, message) == r
  {
  }

  /** After any messages, one more is delivered exactly if it is a frame of the other side with the number after those
      delivered; a size is applied exactly if it has the number after those applied; the loop ends exactly at a message
      that is none of this side's frames, that is too far ahead, or that closes the stream. */
  lemma OneMoreMessage(end: End, direction: Octet, messages: seq<Message>, message: Message)
    ensures var r, r' := Received(end, direction, messages), Received(end, direction, messages + [message]);
      if r.stopped then r' == r else TakesMessage(r, r', end, direction, message)
  {
    hide ReceiveStep, CountersFollow, TakesMessage;
    var r := Received(end, direction, messages);
    assert (messages + [message])[..|messages|] == messages;
    CountersAlwaysFollow(end, direction, messages);
    if r.stopped {
      StoppedIgnores(r, end, direction, message);
    } else {
      StepTakesMessage(r, end, direction, message);
    }
  }
}
