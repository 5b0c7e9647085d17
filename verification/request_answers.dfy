/** What the table's calls do to the slots, and that each of them is the locked region and the pushes of the runs. */
module RequestAnswers {
  import opened GoText
  import opened Wrappers
  import opened PeerProtocol
  import opened RequestTracking
  import opened RequestRuns

  /** The slot still waits in the table, under this generation. */
  ghost predicate Waits(t: Table, i: nat, generation: nat)
    requires i < |t.slots|
  {
    var slot := t.slots[i];
    slot.requestId in t.pending && t.pending[slot.requestId] == i && slot.generation == generation
  }

  /** FailAll answers every waiting slot of the generation with that slot's own error and closes it; every other slot
      and every other entry of the table stays as it is. */
  lemma FailAllAnswers(t: Table, generation: nat, code: ErrorCode)
    requires t.Valid()
    ensures var t' := FailAllStep(t, generation, code);
      && t'.Valid() && |t'.slots| == |t.slots|
      && (forall i: nat :: i < |t.slots| ==>
            var id := t.slots[i].requestId;
            t'.slots[i] ==
              if Waits(t, i, generation) then
                Slot(id, generation, [ErrorOutcome(RuntimeError(id, generation, code))], true)
              else t.slots[i])
      && (forall id :: id in t'.pending <==> id in t.pending && t.slots[t.pending[id]].generation != generation)
      && (forall id :: id in t'.pending ==> t'.pending[id] == t.pending[id])
  {
  }

  /** A completion answers the one slot that waits for it, with exactly the outcome given, and leaves the rest alone;
      if there is none, nothing changes. */
  lemma CompleteAnswers(t: Table, requestId: Text, generation: nat, outcome: Outcome)
    requires t.Valid()
    ensures var (t', completed) := CompleteStep(t, requestId, generation, outcome);
      && t'.Valid()
      && (completed <==> requestId in t.pending && t.slots[t.pending[requestId]].generation == generation)
      && if completed then
           var i := t.pending[requestId];
           && t'.pending == t.pending - {requestId}
           && t'.slots == t.slots[i := Slot(requestId, generation, [outcome], true)]
         else t' == t
  {
    if requestId in t.pending {
      var i := t.pending[requestId];
      assert t.slots[i].outcomes == [] && t.slots[i].outcomes + [outcome] == [outcome];
    }
  }

  /** A registration makes one new waiting slot without an outcome, exactly if the ID is free. */
  lemma RegisterWaits(t: Table, requestId: Text, generation: nat)
    requires t.Valid()
    ensures var (t', r) := RegisterStep(t, requestId, generation);
      && t'.Valid()
      && (r.Ok? <==> requestId !in t.pending)
      && (r.Ok? ==>
            && r.value == |t.slots| && t'.slots == t.slots + [Slot(requestId, generation, [], false)]
            && t'.pending == t.pending[requestId := r.value] && Waits(t', r.value, generation))
      && (r.Err? ==> t' == t && r.error == RuntimeError(requestId, generation, RequestConflict))
  {
  }

  // ---------- The calls are the steps of the runs ----------

  /** The pushes of these tickets, one after the other. */
  function Pushed(c: Conn, tickets: seq<nat>): (r: Conn)
    requires Inv(c)
    ensures Inv(r)
  {
    if tickets == [] then c else
      var before := Pushed(c, tickets[..|tickets| - 1]);
      NextKeepsInv(before, Push(tickets[|tickets| - 1]));
      Next(before, Push(tickets[|tickets| - 1]))
  }

  lemma PushAnswers(c: Conn, ticket: nat)
    requires Inv(c)
    ensures var c' := Next(c, Push(ticket));
      && c'.table.pending == c.table.pending && |c'.table.slots| == |c.table.slots|
      && c'.claimed == c.claimed - {ticket}
      && (forall i: nat :: i < |c.table.slots| ==>
            var slot := c.table.slots[i];
            c'.table.slots[i] ==
              if i == ticket && i in c.claimed then slot.(outcomes := [c.claimed[i]], closed := true) else slot)
  {
    hide RuntimeId;
    if ticket in c.claimed { assert SlotInv(c, ticket); }
  }

  lemma {:induction false} PushedAnswers(c: Conn, tickets: seq<nat>)
    requires Inv(c)
    ensures var c' := Pushed(c, tickets);
      && c'.table.pending == c.table.pending && |c'.table.slots| == |c.table.slots|
      && (forall i :: i in c'.claimed <==> i in c.claimed && i !in tickets)
      && (forall i :: i in c'.claimed ==> c'.claimed[i] == c.claimed[i])
      && (forall i: nat :: i < |c.table.slots| ==>
            var slot := c.table.slots[i];
            c'.table.slots[i] ==
              if i in tickets && i in c.claimed then slot.(outcomes := [c.claimed[i]], closed := true) else slot)
  {
    hide Inv, Next;
    if tickets != [] {
      var n := |tickets| - 1;
      PushedAnswers(c, tickets[..n]);
      PushAnswers(Pushed(c, tickets[..n]), tickets[n]);
      assert tickets == tickets[..n] + [tickets[n]];
    }
  }

  /** After the table has been emptied, the claimed outcome of every entry taken out is its own error. */
  lemma DrainClaims(c: Conn, code: ErrorCode)
    requires Inv(c) && c.phase.Closed?
    ensures var drained := Next(c, Drain(code));
      && Inv(drained) && drained.table == Table(map[], c.table.slots)
      && (forall i: nat :: i < |c.table.slots| && IsPending(c, i) ==>
            i in drained.claimed
              && drained.claimed[i] == ErrorOutcome(RuntimeError(c.table.slots[i].requestId, c.generation, code)))
  {
    NextKeepsInv(c, Drain(code));
    hide SlotInv, OwnerInv, CallInv, ClaimAll, RuntimeId;
    DrainEmpties(c);
    forall i: nat | i < |c.table.slots| && IsPending(c, i)
      ensures i in Next(c, Drain(code)).claimed
      ensures Next(c, Drain(code)).claimed[i] == FailureOf(c.table.slots[i].requestId, c.generation, code)
    {
      assert c.table.pending[c.table.slots[i].requestId] == i;
    }
  }

  /** Emptying the table and pushing for each entry taken out, in any order, is what FailAll does to the table. */
  lemma DrainAndPushIsFailAll(c: Conn, code: ErrorCode, tickets: seq<nat>)
    requires Inv(c) && c.phase.Closed?
    requires forall i: nat :: i in tickets <==> i < |c.table.slots| && IsPending(c, i)
    ensures Inv(Next(c, Drain(code)))
    ensures Pushed(Next(c, Drain(code)), tickets).table == FailAllStep(c.table, c.generation, code)
  {
    DrainClaims(c, code);
    PushedAnswers(Next(c, Drain(code)), tickets);
    FailAllAnswers(c.table, c.generation, code);
    forall i: nat | i < |c.table.slots| ensures c.table.slots[i].generation == c.generation {
      assert SlotInv(c, i);
    }
    hide Inv, Next, FailAllStep;
    var table, failed := Pushed(Next(c, Drain(code)), tickets).table, FailAllStep(c.table, c.generation, code);
    assert failed.pending.Keys == {};
    assert table.slots == failed.slots;
  }

  /** Claiming an incoming outcome and pushing it is what the completion does to the table. */
  lemma ClaimAndPushIsComplete(c: Conn, outcome: Outcome)
    requires Inv(c)
    ensures var (valid, id, generation) := match outcome
        case ResultOutcome(r) => (r.Validate(), r.requestId, r.generation)
        case ErrorOutcome(e) => (e.ValidateCorrelated(), e.requestId, e.generation);
      var (table, completed) := CompleteStep(c.table, id, generation, outcome);
      && Inv(Next(c, Incoming(outcome)))
      && (Claiming(c, outcome).1 <==> valid && completed)
      && (if valid && completed then
            id in c.table.pending && Next(Next(c, Incoming(outcome)), Push(c.table.pending[id])).table == table
          else Next(c, Incoming(outcome)) == c)
  {
    hide RuntimeId, Bounded;
    NextKeepsInv(c, Incoming(outcome));
  }

  // ---------- What a call is told ----------

  /** A call is refused at once if its request is for another generation, is not valid, or has an ID that waits already,
      in this order; otherwise it gets the next slot. */
  lemma BeginDecides(c: Conn, call: nat, request: RuntimeRequest, now: int)
    requires Inv(c) && call !in c.calls
    ensures var c', refused := Next(c, Begin(call, request, now)),
        (code: ErrorCode) => Returned(None, Refused(RuntimeError(request.requestId, request.generation, code)));
      && c'.calls == c.calls[call := Call(request,
           if request.generation != c.generation then refused(StaleGeneration)
           else if !request.Validate(now) then refused(InvalidTarget)
           else if request.requestId in c.table.pending then refused(RequestConflict)
           else Registered(|c.table.slots|))]
      && (c'.calls[call].pc.Registered? <==> c'.table != c.table)
  {
    hide RuntimeId, Bounded;
  }

  /** The call's own entry waits in the table. */
  ghost predicate Undisturbed(c: Conn, call: nat) {
    && call in c.calls && !c.calls[call].pc.Returned?
    && c.calls[call].pc.ticket < |c.table.slots| && IsPending(c, c.calls[call].pc.ticket)
  }

  /** What a call returns that has been answered with this error of its own. */
  function OwnError(call: Call, ticket: nat, code: ErrorCode): Pc {
    Returned(Some(ticket), FromOutcome(ErrorOutcome(RuntimeError(call.request.requestId, call.request.generation, code))))
  }

  lemma ClaimsOwn(c: Conn, call: nat, code: ErrorCode)
    requires Inv(c) && Undisturbed(c, call) && !code.UnknownCode?
    ensures var t, error := c.calls[call].pc.ticket, ErrorOutcome(CallError(c.calls[call], code));
      Claiming(c, error) == (c.(table := Table(c.table.pending - {c.calls[call].request.requestId}, c.table.slots),
                                claimed := c.claimed[t := error]), true)
  {
    hide RuntimeId;
    assert CallInv(c, call) && OwnerInv(c, c.calls[call].pc.ticket) && SlotInv(c, c.calls[call].pc.ticket);
    OwnErrorClaims(c, call, code);
  }

  lemma PushThenReceive(c: Conn, call: nat, outcome: Outcome)
    requires Inv(c) && call in c.calls && c.calls[call].pc.Waiting?
    requires var t := c.calls[call].pc.ticket; t < |c.table.slots| && t in c.claimed && c.claimed[t] == outcome
    ensures Inv(Next(c, Push(c.calls[call].pc.ticket)))
    ensures var t := c.calls[call].pc.ticket;
      var c' := Next(Next(c, Push(t)), Receive(call));
      call in c'.calls && c'.calls[call].pc == Returned(Some(t), FromOutcome(outcome))
  {
    var t := c.calls[call].pc.ticket;
    NextKeepsInv(c, Push(t));
    PushAnswers(c, t);
    assert Next(c, Push(t)).calls == c.calls;
    hide Inv, RuntimeId;
  }

  /** A call that cannot send its request, and that nobody else answers, returns that its peer is offline if the
      connection has closed or its context is done, and that the queue is full if it is. */
  lemma FailedSendIsReturned(c: Conn, call: nat, contextDone: bool)
    requires Inv(c) && Undisturbed(c, call) && c.calls[call].pc.Registered?
    requires c.phase != Open || contextDone || c.queued >= c.capacity
    ensures var t, sent := c.calls[call].pc.ticket, Next(c, Send(call, contextDone));
      && Inv(sent) && Inv(Next(sent, FailSend(call))) && Inv(Next(Next(sent, FailSend(call)), Push(t)))
      && var c' := Next(Next(Next(sent, FailSend(call)), Push(t)), Receive(call));
      && call in c'.calls
      && c'.calls[call].pc ==
           OwnError(c.calls[call], t, if c.phase != Open || contextDone then PeerOffline else QueueFull)
  {
    var t, sent := c.calls[call].pc.ticket, Next(c, Send(call, contextDone));
    var code := if c.phase != Open || contextDone then PeerOffline else QueueFull;
    NextKeepsInv(c, Send(call, contextDone));
    assert sent == Moved(c, call, SendFailed(t, code));
    NextKeepsInv(sent, FailSend(call));
    hide Inv, RuntimeId, Bounded, Claiming;
    ClaimsOwn(sent, call, code);
    PushThenReceive(Next(sent, FailSend(call)), call, ErrorOutcome(CallError(c.calls[call], code)));
  }

  /** A call that is sent waits for its answer, and takes one place in the queue until it is written. */
  lemma SendTakesPlace(c: Conn, call: nat)
    requires Inv(c) && call in c.calls && c.calls[call].pc.Registered? && c.phase == Open && c.queued < c.capacity
    ensures var c' := Next(c, Send(call, false));
      && c' == c.(queued := c.queued + 1, calls := c.calls[call := c.calls[call].(pc := Waiting(c.calls[call].pc.ticket))])
      && Inv(c') && Next(c', Write) == c'.(queued := c.queued)
  {
    NextKeepsInv(c, Send(call, false));
    hide Inv;
  }

  /** A waiting call whose result comes in, and is pushed, returns that result. */
  lemma ResultIsReturned(c: Conn, call: nat, result: RuntimeResult)
    requires Inv(c) && Undisturbed(c, call) && c.calls[call].pc.Waiting? && result.Validate()
    requires result.requestId == c.calls[call].request.requestId && result.generation == c.generation
    ensures var t, claimed := c.calls[call].pc.ticket, Next(c, Incoming(ResultOutcome(result)));
      && Inv(claimed) && Inv(Next(claimed, Push(t)))
      && var c' := Next(Next(claimed, Push(t)), Receive(call));
      call in c'.calls && c'.calls[call].pc == Returned(Some(t), FromOutcome(ResultOutcome(result)))
  {
    hide RuntimeId, Bounded;
    var t := c.calls[call].pc.ticket;
    assert CallInv(c, call) && OwnerInv(c, t) && SlotInv(c, t);
    NextKeepsInv(c, Incoming(ResultOutcome(result)));
    var claimed := Next(c, Incoming(ResultOutcome(result)));
    assert t in claimed.claimed && claimed.claimed[t] == ResultOutcome(result);
    hide Inv, SlotInv, OwnerInv, CallInv;
    PushThenReceive(claimed, call, ResultOutcome(result));
  }

  /** A waiting call whose context ends before it is answered returns a timeout, and its entry leaves the table. */
  lemma TimeoutIsReturned(c: Conn, call: nat)
    requires Inv(c) && Undisturbed(c, call) && c.calls[call].pc.Waiting?
    ensures var c', id := Next(c, ContextEnds(call)), c.calls[call].request.requestId;
      && call in c'.calls && c'.calls[call].pc == OwnError(c.calls[call], c.calls[call].pc.ticket, Timeout)
      && c'.table.pending == c.table.pending - {id}
  {
    hide RuntimeId, Bounded, Claiming, Inv;
    ClaimsOwn(c, call, Timeout);
  }

  /** In every run, no more messages are queued than the connection holds. */
  lemma {:induction false} QueueIsBounded(generation: nat, capacity: nat, steps: seq<Step>)
    ensures After(generation, capacity, steps).capacity == capacity && After(generation, capacity, steps).queued <= capacity
  {
    hide Inv;
    if steps != [] {
      QueueIsBounded(generation, capacity, steps[..|steps| - 1]);
      StepKeepsQueue(After(generation, capacity, steps[..|steps| - 1]), steps[|steps| - 1]);
      hide Next;
    }
  }

  lemma StepKeepsQueue(c: Conn, step: Step)
    requires Inv(c) && c.queued <= c.capacity
    ensures Next(c, step).capacity == c.capacity && Next(c, step).queued <= c.capacity
  {
    hide RuntimeId, Bounded, Inv, RegisterStep, ClaimAll, Deliver;
  }
}
