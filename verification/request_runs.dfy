/** Every interleaving of Request calls, incoming answers, timeouts and the closing of one peer connection.
    Each locked region is one step; the push that follows a claim is a step of its own. */
module RequestRuns {
  import opened GoText
  import opened Wrappers
  import opened PeerProtocol
  import opened RequestTracking

  datatype Answer = FromOutcome(outcome: Outcome) | Refused(error: RuntimeError) | MarshalError

  /** Where a Request call is. `ticket` is the slot its registration made. */
  datatype Pc =
    | Registered(ticket: nat)
    | SendFailed(ticket: nat, code: ErrorCode)
    | Waiting(ticket: nat)
    | LateWait(ticket: nat)
    | Returned(own: Option<nat>, answer: Answer)
  {
    function Ticket(): Option<nat> {
      if Returned? then own else Some(ticket)
    }
  }

  datatype Call = Call(request: RuntimeRequest, pc: Pc)

  /** Open, then marked closed, then emptied by FailAll. */
  datatype Phase = Open | Closed | Drained

  /** `claimed` holds the outcomes of entries taken out of the table whose push is still to come;
      `owners` names the call of each slot. */
  datatype Conn = Conn(
    generation: nat, capacity: nat, queued: nat, phase: Phase,
    table: Table, claimed: map<nat, Outcome>, calls: map<nat, Call>, owners: seq<nat>)

  function NewConn(generation: nat, capacity: nat): Conn {
    Conn(generation, capacity, 0, Open, Table(map[], []), map[], map[], [])
  }

  datatype Step =
    | Begin(call: nat, request: RuntimeRequest, now: int)
    | MarshalFails(call: nat)
    | Send(call: nat, contextDone: bool)
    | Write
    | FailSend(call: nat)
    | Receive(call: nat)
    | ContextEnds(call: nat)
    | Incoming(outcome: Outcome)
    | Push(ticket: nat)
    | Close
    | Drain(code: ErrorCode)

  function Moved(c: Conn, call: nat, pc: Pc): Conn
    requires call in c.calls
  {
    c.(calls := c.calls[call := c.calls[call].(pc := pc)])
  }

  /** CompleteResult or CompleteError up to the push: an outcome that fails its own check claims nothing. */
  function Claiming(c: Conn, outcome: Outcome): (r: (Conn, bool))
    requires c.table.Valid()
    ensures r.0.calls == c.calls && r.0.owners == c.owners && r.0.table.slots == c.table.slots
  {
    var (valid, requestId, generation) :=
      match outcome
      case ResultOutcome(r) => (r.Validate(), r.requestId, r.generation)
      case ErrorOutcome(e) => (e.ValidateCorrelated(), e.requestId, e.generation);
    if !valid then (c, false) else
      var (table, ticket) := Claim(c.table, requestId, generation);
      if ticket.None? then (c, false)
      else (c.(table := table, claimed := c.claimed[ticket.value := outcome]), true)
  }

  function CallError(call: Call, code: ErrorCode): RuntimeError {
    RuntimeError(call.request.requestId, call.request.generation, code)
  }

  /** The error of each entry taken out, for its slot. */
  function Failures(selected: map<Text, nat>, generation: nat, code: ErrorCode): map<nat, Outcome>
    requires forall id, other :: id in selected && other in selected && selected[id] == selected[other] ==> id == other
  {
    map id | id in selected :: selected[id] := FailureOf(id, generation, code)
  }

  function Next(c: Conn, step: Step): Conn
    requires c.table.Valid()
  {
    match step
    case Begin(call, request, now) =>
      if call in c.calls then c else
        var refuse := (code: ErrorCode) =>
          c.(calls := c.calls[call := Call(request,
            Returned(None, Refused(RuntimeError(request.requestId, request.generation, code))))]);
        if request.generation != c.generation then refuse(StaleGeneration)
        else if !request.Validate(now) then refuse(InvalidTarget)
        else
          var (table, ticket) := RegisterStep(c.table, request.requestId, request.generation);
          if ticket.Err? then refuse(RequestConflict)
          else c.(table := table, calls := c.calls[call := Call(request, Registered(ticket.value))],
                  owners := c.owners + [call])
    case MarshalFails(call) =>
      if call !in c.calls || !c.calls[call].pc.Registered? then c else
        var (c', _) := Claiming(c, ErrorOutcome(CallError(c.calls[call], ExecutionFailed)));
        Moved(c', call, Returned(Some(c.calls[call].pc.ticket), MarshalError))
    case Send(call, contextDone) =>
      if call !in c.calls || !c.calls[call].pc.Registered? then c else
        var ticket := c.calls[call].pc.ticket;
        if c.phase != Open then Moved(c, call, SendFailed(ticket, PeerOffline))
        else if contextDone then Moved(c, call, SendFailed(ticket, PeerOffline))
        else if c.queued < c.capacity then Moved(c.(queued := c.queued + 1), call, Waiting(ticket))
        else Moved(c, call, SendFailed(ticket, QueueFull))
    case Write => if c.queued > 0 then c.(queued := c.queued - 1) else c
    case FailSend(call) =>
      if call !in c.calls || !c.calls[call].pc.SendFailed? then c else
        var (c', _) := Claiming(c, ErrorOutcome(CallError(c.calls[call], c.calls[call].pc.code)));
        Moved(c', call, Waiting(c.calls[call].pc.ticket))
    case Receive(call) =>
      if call !in c.calls || !(c.calls[call].pc.Waiting? || c.calls[call].pc.LateWait?) then c else
        var ticket := c.calls[call].pc.ticket;
        if ticket < |c.table.slots| && c.table.slots[ticket].outcomes != [] then
          Moved(c, call, Returned(Some(ticket), FromOutcome(c.table.slots[ticket].outcomes[0])))
        else c
    case ContextEnds(call) =>
      if call !in c.calls || !c.calls[call].pc.Waiting? then c else
        var ticket, timeout := c.calls[call].pc.ticket, ErrorOutcome(CallError(c.calls[call], Timeout));
        var (c', claimed) := Claiming(c, timeout);
        Moved(c', call, if claimed then Returned(Some(ticket), FromOutcome(timeout)) else LateWait(ticket))
    case Incoming(outcome) => Claiming(c, outcome).0
    case Push(ticket) =>
      if ticket !in c.claimed || ticket >= |c.table.slots| then c else
        c.(table := Deliver(c.table, ticket, c.claimed[ticket]), claimed := c.claimed - {ticket})
    case Close => if c.phase.Open? then c.(phase := Closed) else c
    case Drain(code) =>
      if !c.phase.Closed? then c else
        var (table, selected) := ClaimAll(c.table, c.generation);
        c.(phase := Drained, table := table,
           claimed := c.claimed + Failures(selected, c.generation, code))
  }

  // ---------- The invariant ----------

  ghost predicate IsPending(c: Conn, t: nat)
    requires t < |c.table.slots|
  {
    c.table.slots[t].requestId in c.table.pending && c.table.pending[c.table.slots[t].requestId] == t
  }

  /** Each slot is waiting in the table, or claimed with its push to come, or answered: never two of these. */
  ghost predicate SlotInv(c: Conn, t: nat)
    requires t < |c.table.slots|
  {
    && (t in c.claimed ==> !IsPending(c, t) && !c.table.slots[t].closed)
    && (IsPending(c, t) ==> !c.table.slots[t].closed)
    && (IsPending(c, t) || t in c.claimed || c.table.slots[t].closed)
    && c.table.slots[t].generation == c.generation
  }

  /** The call of a slot knows it, and no longer sends or waits for it only if the slot is no longer pending.
      After the table has been emptied, a pending slot's call has yet to notice that the connection is closed. */
  ghost predicate OwnerInv(c: Conn, t: nat)
    requires t < |c.table.slots| == |c.owners|
  {
    && c.owners[t] in c.calls
    && var call := c.calls[c.owners[t]];
    && call.pc.Ticket() == Some(t)
    && call.request.requestId == c.table.slots[t].requestId
    && call.request.generation == c.generation
    && (IsPending(c, t) ==> call.pc.Registered? || call.pc.SendFailed? || call.pc.Waiting?)
    && (IsPending(c, t) && c.phase == Drained ==> !call.pc.Waiting?)
  }

  ghost predicate CallInv(c: Conn, call: nat)
    requires call in c.calls && |c.table.slots| == |c.owners|
  {
    var own := c.calls[call].pc.Ticket();
    && (own.Some? ==> && own.value < |c.owners| && c.owners[own.value] == call
                      && RuntimeId(c.calls[call].request.requestId) && c.generation != 0)
    && (c.calls[call].pc.SendFailed? ==> !c.calls[call].pc.code.UnknownCode?)
  }

  ghost predicate Inv(c: Conn) {
    && c.table.Valid()
    && |c.owners| == |c.table.slots|
    && (forall t :: t in c.claimed ==> t < |c.table.slots|)
    && (forall t :: 0 <= t < |c.table.slots| ==> SlotInv(c, t))
    && (forall t :: 0 <= t < |c.table.slots| ==> OwnerInv(c, t))
    && (forall call :: call in c.calls ==> CallInv(c, call))
  }

  /** Claiming takes at most one slot from pending to claimed and changes nothing else. */
  lemma ClaimingEffect(c: Conn, outcome: Outcome)
    requires Inv(c)
    ensures var (c', claimed) := Claiming(c, outcome);
      && Inv(c')
      && c'.table.slots == c.table.slots && c'.owners == c.owners && c'.calls == c.calls && c'.phase == c.phase
      && c'.generation == c.generation
      && (forall t :: 0 <= t < |c.table.slots| && IsPending(c', t) ==> IsPending(c, t))
      && c.claimed.Keys <= c'.claimed.Keys
      && (!claimed ==> c' == c)
  {
    hide RuntimeId;
    var (c', claimed) := Claiming(c, outcome);
    forall t | 0 <= t < |c'.table.slots| ensures SlotInv(c', t) && OwnerInv(c', t) {
      assert SlotInv(c, t) && OwnerInv(c, t);
    }
    forall i | i in c'.calls ensures CallInv(c', i) {
      assert CallInv(c, i);
    }
  }

  /** A call's own error always passes the check, so after CompleteError its own slot is pending no more. */
  lemma OwnErrorClaims(c: Conn, call: nat, code: ErrorCode)
    requires Inv(c) && call in c.calls && c.calls[call].pc.Ticket().Some? && !code.UnknownCode?
    ensures CallError(c.calls[call], code).ValidateCorrelated()
    ensures var (c', claimed) := Claiming(c, ErrorOutcome(CallError(c.calls[call], code)));
      !IsPending(c', c.calls[call].pc.Ticket().value)
  {
    hide RuntimeId;
    var t := c.calls[call].pc.Ticket().value;
    assert CallInv(c, call) && OwnerInv(c, t) && SlotInv(c, t);
  }

  /** A call may move on as long as it keeps its slot and the slot's state allows it. */
  lemma MoveKeepsInv(c: Conn, call: nat, pc: Pc)
    requires Inv(c) && call in c.calls
    requires pc.Ticket() == c.calls[call].pc.Ticket() && pc.Ticket().Some?
    requires pc.SendFailed? ==> !pc.code.UnknownCode?
    requires var t := pc.Ticket().value;
      t < |c.table.slots| && (IsPending(c, t) ==> pc.SendFailed? || (pc.Waiting? && c.phase != Drained))
    ensures Inv(Moved(c, call, pc))
  {
    hide RuntimeId;
    var c' := Moved(c, call, pc);
    forall t | 0 <= t < |c'.table.slots| ensures SlotInv(c', t) && OwnerInv(c', t) {
      assert SlotInv(c, t) && OwnerInv(c, t);
    }
    forall i | i in c'.calls ensures CallInv(c', i) {
      assert CallInv(c, i);
    }
  }

  lemma RefusalKeepsInv(c: Conn, call: nat, request: RuntimeRequest, error: RuntimeError)
    requires Inv(c) && call !in c.calls
    ensures Inv(c.(calls := c.calls[call := Call(request, Returned(None, Refused(error)))]))
  {
    hide RuntimeId;
    var c' := c.(calls := c.calls[call := Call(request, Returned(None, Refused(error)))]);
    forall t | 0 <= t < |c'.table.slots| ensures SlotInv(c', t) && OwnerInv(c', t) {
      assert SlotInv(c, t) && OwnerInv(c, t);
    }
    forall i | i in c'.calls ensures CallInv(c', i) {
      if i in c.calls { assert CallInv(c, i); }
    }
  }

  lemma RegistrationKeepsInv(c: Conn, call: nat, request: RuntimeRequest)
    requires Inv(c) && call !in c.calls && request.generation == c.generation != 0
    requires RuntimeId(request.requestId) && request.requestId !in c.table.pending
    ensures Inv(c.(table := RegisterStep(c.table, request.requestId, request.generation).0,
                   calls := c.calls[call := Call(request, Registered(|c.table.slots|))], owners := c.owners + [call]))
  {
    hide RuntimeId;
    var c' := c.(table := RegisterStep(c.table, request.requestId, request.generation).0,
                 calls := c.calls[call := Call(request, Registered(|c.table.slots|))], owners := c.owners + [call]);
    forall t | 0 <= t < |c'.table.slots| ensures SlotInv(c', t) && OwnerInv(c', t) {
      if t < |c.table.slots| {
        assert SlotInv(c, t) && OwnerInv(c, t);
        assert IsPending(c', t) ==> IsPending(c, t);
      }
    }
    forall i | i in c'.calls ensures CallInv(c', i) {
      if i in c.calls { assert CallInv(c, i); }
    }
  }

  lemma BeginKeepsInv(c: Conn, call: nat, request: RuntimeRequest, now: int)
    requires Inv(c)
    ensures Inv(Next(c, Begin(call, request, now)))
  {
    hide RuntimeId, Bounded, Inv;
    if call !in c.calls {
      if request.generation != c.generation {
        RefusalKeepsInv(c, call, request, RuntimeError(request.requestId, request.generation, StaleGeneration));
      } else if !request.Validate(now) {
        RefusalKeepsInv(c, call, request, RuntimeError(request.requestId, request.generation, InvalidTarget));
      } else if request.requestId in c.table.pending {
        RefusalKeepsInv(c, call, request, RuntimeError(request.requestId, request.generation, RequestConflict));
      } else {
        RegistrationKeepsInv(c, call, request);
      }
    }
  }

  lemma FailingStepsKeepInv(c: Conn, step: Step)
    requires Inv(c) && (step.MarshalFails? || step.FailSend? || step.ContextEnds?)
    ensures Inv(Next(c, step))
  {
    hide RuntimeId, Claiming;
    var call := step.call;
    if call in c.calls && !c.calls[call].pc.Returned? {
      var pc := c.calls[call].pc;
      assert CallInv(c, call);
      assert OwnerInv(c, pc.ticket) && SlotInv(c, pc.ticket);
      hide SlotInv, OwnerInv, CallInv;
      if step.MarshalFails? && pc.Registered? {
        var error := ErrorOutcome(CallError(c.calls[call], ExecutionFailed));
        ClaimingEffect(c, error);
        OwnErrorClaims(c, call, ExecutionFailed);
        MoveKeepsInv(Claiming(c, error).0, call, Returned(Some(pc.ticket), MarshalError));
      } else if step.FailSend? && pc.SendFailed? {
        var error := ErrorOutcome(CallError(c.calls[call], pc.code));
        ClaimingEffect(c, error);
        OwnErrorClaims(c, call, pc.code);
        MoveKeepsInv(Claiming(c, error).0, call, Waiting(pc.ticket));
      } else if step.ContextEnds? && pc.Waiting? {
        var error := ErrorOutcome(CallError(c.calls[call], Timeout));
        ClaimingEffect(c, error);
        OwnErrorClaims(c, call, Timeout);
        var (c', claimed) := Claiming(c, error);
        MoveKeepsInv(c', call, if claimed then Returned(Some(pc.ticket), FromOutcome(error)) else LateWait(pc.ticket));
      }
    }
  }

  lemma CallStepsKeepInv(c: Conn, step: Step)
    requires Inv(c) && (step.Send? || step.Receive?)
    ensures Inv(Next(c, step))
  {
    hide RuntimeId, Claiming;
    var call := step.call;
    if call in c.calls && !c.calls[call].pc.Returned? {
      var pc := c.calls[call].pc;
      assert CallInv(c, call);
      assert OwnerInv(c, pc.ticket) && SlotInv(c, pc.ticket);
      if step.Send? && pc.Registered? {
        if c.phase != Open || step.contextDone {
          MoveKeepsInv(c, call, SendFailed(pc.ticket, PeerOffline));
        } else if c.queued < c.capacity {
          QueueIsIrrelevant(c, c.queued + 1);
          MoveKeepsInv(c.(queued := c.queued + 1), call, Waiting(pc.ticket));
        } else {
          MoveKeepsInv(c, call, SendFailed(pc.ticket, QueueFull));
        }
      } else if step.Receive? && (pc.Waiting? || pc.LateWait?) && c.table.slots[pc.ticket].outcomes != [] {
        MoveKeepsInv(c, call, Returned(Some(pc.ticket), FromOutcome(c.table.slots[pc.ticket].outcomes[0])));
      }
    }
  }

  lemma QueueIsIrrelevant(c: Conn, n: nat)
    requires Inv(c)
    ensures Inv(c.(queued := n))
  {
    hide RuntimeId;
    var c' := c.(queued := n);
    forall t | 0 <= t < |c'.table.slots| ensures SlotInv(c', t) && OwnerInv(c', t) {
      assert SlotInv(c, t) && OwnerInv(c, t);
    }
    forall i | i in c'.calls ensures CallInv(c', i) {
      assert CallInv(c, i);
    }
  }

  lemma PushKeepsInv(c: Conn, ticket: nat)
    requires Inv(c)
    ensures Inv(Next(c, Push(ticket)))
  {
    hide RuntimeId;
    var c' := Next(c, Push(ticket));
    if ticket in c.claimed { assert SlotInv(c, ticket); }
    forall t | 0 <= t < |c'.table.slots| ensures SlotInv(c', t) && OwnerInv(c', t) {
      assert SlotInv(c, t) && OwnerInv(c, t);
    }
    forall i | i in c'.calls ensures CallInv(c', i) {
      assert CallInv(c, i);
    }
  }

  lemma CloseKeepsInv(c: Conn)
    requires Inv(c)
    ensures Inv(Next(c, Close))
  {
    hide RuntimeId;
    var c' := Next(c, Close);
    forall t | 0 <= t < |c'.table.slots| ensures SlotInv(c', t) && OwnerInv(c', t) {
      assert SlotInv(c, t) && OwnerInv(c, t);
    }
    forall i | i in c'.calls ensures CallInv(c', i) {
      assert CallInv(c, i);
    }
  }

  /** FailAll leaves nothing in the table: every entry has the connection's generation. */
  lemma DrainEmpties(c: Conn)
    requires Inv(c)
    ensures var (table, selected) := ClaimAll(c.table, c.generation);
      table == Table(map[], c.table.slots) && selected == c.table.pending
  {
    var (table, selected) := ClaimAll(c.table, c.generation);
    forall id | id in c.table.pending ensures Selected(c.table, id, c.generation) {
      assert SlotInv(c, c.table.pending[id]);
    }
    assert table.pending.Keys == {};
  }

  lemma DrainKeepsInv(c: Conn, code: ErrorCode)
    requires Inv(c)
    ensures Inv(Next(c, Drain(code)))
  {
    hide RuntimeId, ClaimAll;
    var c' := Next(c, Drain(code));
    DrainEmpties(c);
    forall t | 0 <= t < |c'.table.slots| ensures SlotInv(c', t) && OwnerInv(c', t) {
      assert SlotInv(c, t) && OwnerInv(c, t);
    }
    forall i | i in c'.calls ensures CallInv(c', i) {
      assert CallInv(c, i);
    }
  }

  lemma NextKeepsInv(c: Conn, step: Step)
    requires Inv(c)
    ensures Inv(Next(c, step))
  {
    match step
    case Begin(call, request, now) => BeginKeepsInv(c, call, request, now);
    case Write => QueueIsIrrelevant(c, if c.queued > 0 then c.queued - 1 else c.queued);
    case Incoming(outcome) => ClaimingEffect(c, outcome);
    case Push(ticket) => PushKeepsInv(c, ticket);
    case Close => CloseKeepsInv(c);
    case Drain(code) => DrainKeepsInv(c, code);
    case Send(_, _) => CallStepsKeepInv(c, step);
    case Receive(_) => CallStepsKeepInv(c, step);
    case _ => FailingStepsKeepInv(c, step);
  }

  // ---------- Runs ----------

  function After(generation: nat, capacity: nat, steps: seq<Step>): (c: Conn)
    ensures Inv(c)
  {
    if steps == [] then NewConn(generation, capacity) else
      var before := After(generation, capacity, steps[..|steps| - 1]);
      NextKeepsInv(before, steps[|steps| - 1]);
      Next(before, steps[|steps| - 1])
  }

  ghost predicate IsClaimed(c: Conn, t: nat) { t in c.claimed }

  ghost predicate IsAnswered(c: Conn, t: nat)
    requires t < |c.table.slots|
  {
    c.table.slots[t].closed && |c.table.slots[t].outcomes| == 1
  }

  /** In every run, each registered slot is in exactly one of three states: waiting in the table, claimed by one
      thread that is about to push, or answered with exactly one outcome. */
  lemma ExactlyOneOutcome(generation: nat, capacity: nat, steps: seq<Step>, t: nat)
    requires t < |After(generation, capacity, steps).table.slots|
    ensures var c := After(generation, capacity, steps);
      && |c.table.slots[t].outcomes| <= 1
      && (IsPending(c, t) || IsClaimed(c, t) || IsAnswered(c, t))
      && !(IsPending(c, t) && IsClaimed(c, t))
      && !(IsPending(c, t) && IsAnswered(c, t))
      && !(IsClaimed(c, t) && IsAnswered(c, t))
  {
    assert SlotInv(After(generation, capacity, steps), t);
  }

  /** An outcome, once claimed or pushed, is final. */
  function Terminal(c: Conn, t: nat): Option<Outcome>
    requires t < |c.table.slots|
  {
    if t in c.claimed then Some(c.claimed[t])
    else if c.table.slots[t].outcomes != [] then Some(c.table.slots[t].outcomes[0])
    else None
  }

  lemma TerminalIsFinal(generation: nat, capacity: nat, steps: seq<Step>, step: Step, t: nat)
    requires t < |After(generation, capacity, steps).table.slots|
    ensures var c := After(generation, capacity, steps);
      && t < |Next(c, step).table.slots|
      && (Terminal(c, t).Some? ==> Terminal(Next(c, step), t) == Terminal(c, t))
  {
    hide RuntimeId, Bounded, ClaimAll, Claiming;
    var c := After(generation, capacity, steps);
    assert SlotInv(c, t);
    match step
    case MarshalFails(call) =>
      if call in c.calls && c.calls[call].pc.Registered? {
        ClaimingIsFinal(c, ErrorOutcome(CallError(c.calls[call], ExecutionFailed)), t);
      }
    case FailSend(call) =>
      if call in c.calls && c.calls[call].pc.SendFailed? {
        ClaimingIsFinal(c, ErrorOutcome(CallError(c.calls[call], c.calls[call].pc.code)), t);
      }
    case ContextEnds(call) =>
      if call in c.calls && c.calls[call].pc.Waiting? {
        ClaimingIsFinal(c, ErrorOutcome(CallError(c.calls[call], Timeout)), t);
      }
    case Incoming(outcome) => ClaimingIsFinal(c, outcome, t);
    case Drain(_) => DrainEmpties(c);
    case _ => QuietStepIsFinal(c, step, t);
  }

  lemma QuietStepIsFinal(c: Conn, step: Step, t: nat)
    requires Inv(c) && t < |c.table.slots|
    requires step.Begin? || step.Send? || step.Write? || step.Receive? || step.Push? || step.Close?
    ensures t < |Next(c, step).table.slots|
    ensures Terminal(c, t).Some? ==> Terminal(Next(c, step), t) == Terminal(c, t)
  {
    hide RuntimeId, Bounded, ClaimAll, Claiming;
    assert SlotInv(c, t);
  }

  lemma ClaimingIsFinal(c: Conn, outcome: Outcome, t: nat)
    requires Inv(c) && t < |c.table.slots|
    ensures t < |Claiming(c, outcome).0.table.slots|
    ensures Terminal(c, t).Some? ==> Terminal(Claiming(c, outcome).0, t) == Terminal(c, t)
  {
    hide RuntimeId, Bounded;
    assert SlotInv(c, t);
  }

  ghost predicate AllReturned(c: Conn) {
    forall call :: call in c.calls ==> c.calls[call].pc.Returned?
  }

  /** Once the connection has been closed and every call has returned, no entry is left in the table. */
  lemma ClosedConnectionDrains(generation: nat, capacity: nat, steps: seq<Step>)
    requires After(generation, capacity, steps).phase == Drained
    requires AllReturned(After(generation, capacity, steps))
    ensures After(generation, capacity, steps).table.pending == map[]
  {
    var c := After(generation, capacity, steps);
    forall id | id in c.table.pending ensures false {
      var t := c.table.pending[id];
      assert OwnerInv(c, t) && IsPending(c, t);
    }
    assert c.table.pending.Keys == {};
  }

  /** What a call that has not returned can do next by itself or through a push that is already due. */
  ghost predicate CanProceed(c: Conn, call: nat)
    requires call in c.calls
  {
    var pc := c.calls[call].pc;
    match pc
    case Registered(_) => true
    case SendFailed(_, _) => true
    case Waiting(t) => t < |c.table.slots| && (IsClaimed(c, t) || IsAnswered(c, t))
    case LateWait(t) => t < |c.table.slots| && (IsClaimed(c, t) || IsAnswered(c, t))
    case Returned(_, _) => true
  }

  /** No call waits for an answer that cannot come: after the table was emptied every waiting call has its outcome
      claimed or pushed, although it may have registered after FailAll; and a call whose timeout came too late has it
      even on an open connection. */
  lemma NoCallIsStranded(generation: nat, capacity: nat, steps: seq<Step>, call: nat)
    requires call in After(generation, capacity, steps).calls
    ensures var c := After(generation, capacity, steps);
      c.phase == Drained || c.calls[call].pc.LateWait? ==> CanProceed(c, call)
  {
    var c := After(generation, capacity, steps);
    assert CallInv(c, call);
    var own := c.calls[call].pc.Ticket();
    if own.Some? {
      assert SlotInv(c, own.value) && OwnerInv(c, own.value);
    }
  }

  // ---------- A call returns the outcome of its own slot ----------

  ghost predicate UniqueIds(c: Conn) {
    forall i, j | i in c.calls && j in c.calls && c.calls[i].pc.Ticket().Some? && c.calls[j].pc.Ticket().Some? ::
      c.calls[i].request.requestId == c.calls[j].request.requestId ==> i == j
  }

  ghost predicate ReturnsOwn(c: Conn, call: nat)
    requires call in c.calls
  {
    var pc := c.calls[call].pc;
    pc.Returned? && pc.own.Some? && pc.answer.FromOutcome? ==>
      pc.own.value < |c.table.slots| && Terminal(c, pc.own.value) == Some(pc.answer.outcome)
  }

  lemma UniqueBefore(c: Conn, step: Step)
    requires Inv(c) && UniqueIds(Next(c, step))
    ensures UniqueIds(c)
  {
    hide RuntimeId, Bounded, Next;
    forall i | i in c.calls
      ensures i in Next(c, step).calls
      ensures Next(c, step).calls[i].request == c.calls[i].request
      ensures Next(c, step).calls[i].pc.Ticket() == c.calls[i].pc.Ticket()
    {
      CallStays(c, step, i);
    }
  }

  lemma CallStays(c: Conn, step: Step, call: nat)
    requires Inv(c) && call in c.calls
    ensures var c' := Next(c, step);
      && call in c'.calls
      && c'.calls[call].request == c.calls[call].request
      && c'.calls[call].pc.Ticket() == c.calls[call].pc.Ticket()
  {
    hide RuntimeId, Bounded, Claiming, ClaimAll, RegisterStep, Deliver;
    if CallOf(step) != Some(call) {
      hide Next;
      OthersStay(c, step, call);
    }
  }

  /** With unique IDs, the entry that a call's timeout claims is its own. */
  lemma OwnTimeout(c: Conn, call: nat)
    requires Inv(c) && UniqueIds(c) && call in c.calls && c.calls[call].pc.Waiting?
    ensures var t, timeout := c.calls[call].pc.ticket, ErrorOutcome(CallError(c.calls[call], Timeout));
      var (c', claimed) := Claiming(c, timeout);
      t < |c'.table.slots| && (claimed ==> Terminal(c', t) == Some(timeout))
  {
    hide RuntimeId;
    var id, t := c.calls[call].request.requestId, c.calls[call].pc.ticket;
    assert CallInv(c, call);
    if id in c.table.pending {
      var u := c.table.pending[id];
      assert OwnerInv(c, u);
      assert c.owners[u] == call;
      assert u == t;
    }
  }

  /** In every run in which no two calls registered the same request ID, the outcome a call returns is the one
      outcome of its own slot. */
  lemma {:induction false} CallsReturnTheirOutcome(generation: nat, capacity: nat, steps: seq<Step>, call: nat)
    requires var c := After(generation, capacity, steps); UniqueIds(c) && call in c.calls
    ensures ReturnsOwn(After(generation, capacity, steps), call)
  {
    hide RuntimeId, Bounded, Next, Inv;
    if steps != [] {
      var n := |steps| - 1;
      var c, step := After(generation, capacity, steps[..n]), steps[n];
      UniqueBefore(c, step);
      if call in c.calls {
        CallsReturnTheirOutcome(generation, capacity, steps[..n], call);
        var own := c.calls[call].pc.Ticket();
        if own.Some? {
          OwnSlotExists(c, call);
          TerminalIsFinal(generation, capacity, steps[..n], step, own.value);
        }
      }
      StepReturnsOwn(c, step, call);
    }
  }

  lemma OwnSlotExists(c: Conn, call: nat)
    requires Inv(c) && call in c.calls && c.calls[call].pc.Ticket().Some?
    ensures c.calls[call].pc.Ticket().value < |c.table.slots|
  {
    assert CallInv(c, call);
  }

  function CallOf(step: Step): Option<nat> {
    match step
    case Begin(call, _, _) => Some(call)
    case MarshalFails(call) => Some(call)
    case Send(call, _) => Some(call)
    case FailSend(call) => Some(call)
    case Receive(call) => Some(call)
    case ContextEnds(call) => Some(call)
    case _ => None
  }

  lemma OthersStay(c: Conn, step: Step, call: nat)
    requires Inv(c) && call in c.calls && CallOf(step) != Some(call)
    ensures call in Next(c, step).calls && Next(c, step).calls[call] == c.calls[call]
  {
    hide RuntimeId, Bounded, Claiming, ClaimAll, RegisterStep, Deliver, SlotInv, OwnerInv, CallInv, CallError, FailureOf;
  }

  lemma ReceiveReturnsOwn(c: Conn, call: nat)
    requires Inv(c) && call in c.calls && ReturnsOwn(c, call)
    ensures ReturnsOwn(Next(c, Receive(call)), call)
  {
    hide RuntimeId, Bounded;
    if c.calls[call].pc.Ticket().Some? {
      OwnSlotExists(c, call);
      assert SlotInv(c, c.calls[call].pc.Ticket().value);
    }
  }

  lemma TimeoutReturnsOwn(c: Conn, call: nat)
    requires Inv(c) && UniqueIds(c) && call in c.calls && ReturnsOwn(c, call)
    ensures ReturnsOwn(Next(c, ContextEnds(call)), call)
  {
    hide RuntimeId, Bounded, Claiming;
    if c.calls[call].pc.Waiting? { OwnTimeout(c, call); }
  }

  lemma StepReturnsOwn(c: Conn, step: Step, call: nat)
    requires Inv(c) && UniqueIds(c) && call in Next(c, step).calls
    requires call in c.calls ==> ReturnsOwn(c, call)
    requires call in c.calls && c.calls[call].pc.Ticket().Some? ==>
      var t := c.calls[call].pc.Ticket().value;
      && t < |c.table.slots| && t < |Next(c, step).table.slots|
      && (Terminal(c, t).Some? ==> Terminal(Next(c, step), t) == Terminal(c, t))
    ensures ReturnsOwn(Next(c, step), call)
  {
    hide RuntimeId, Bounded, Claiming, ClaimAll, RegisterStep, Deliver, Inv, UniqueIds;
    if call in c.calls && CallOf(step) != Some(call) {
      hide Next;
      OthersStay(c, step, call);
    } else if step == Receive(call) && call in c.calls {
      ReceiveReturnsOwn(c, call);
    } else if step == ContextEnds(call) && call in c.calls {
      TimeoutReturnsOwn(c, call);
    } else {
      hide Terminal;
    }
  }

  // ---------- Exactly when every call returns its own outcome ----------

  /** One call of this request is registered and waits; its one outcome has been claimed and is still to be pushed. */
  ghost predicate IsClaimedFor(c: Conn, i: nat, r: RuntimeRequest, outcome: Outcome) {
    && c.generation == r.generation && c.calls == map[i := Call(r, Waiting(0))] && c.claimed == map[0 := outcome]
    && c.table == Table(map[], [Slot(r.requestId, r.generation, [], false)])
  }

  lemma Registers(generation: nat, capacity: nat, i: nat, r: RuntimeRequest, now: int)
    requires r.Validate(now) && r.generation == generation
    ensures var c := Next(NewConn(generation, capacity), Begin(i, r, now));
      && c == Conn(generation, capacity, 0, Open, Table(map[r.requestId := 0], [Slot(r.requestId, generation, [], false)]),
                   map[], map[i := Call(r, Registered(0))], [i])
  {
    hide RuntimeId, Bounded;
  }

  /** The first result for a waiting call is claimed for it. */
  lemma ResultIsClaimed(generation: nat, capacity: nat, i: nat, r: RuntimeRequest, now: int, result: RuntimeResult)
    requires capacity > 0 && r.Validate(now) && r.generation == generation
    requires result.Validate() && result.requestId == r.requestId && result.generation == generation
    ensures IsClaimedFor(After(generation, capacity, [Begin(i, r, now), Send(i, false), Incoming(ResultOutcome(result))]),
                         i, r, ResultOutcome(result))
  {
    hide RuntimeId, Bounded, SlotInv, OwnerInv, CallInv, After;
    Registers(generation, capacity, i, r, now);
    ThreeSteps(generation, capacity, Begin(i, r, now), Send(i, false), Incoming(ResultOutcome(result)));
  }

  /** A call whose context is done when it sends claims its own error. */
  lemma FailureIsClaimed(generation: nat, capacity: nat, i: nat, r: RuntimeRequest, now: int)
    requires r.Validate(now) && r.generation == generation
    ensures IsClaimedFor(After(generation, capacity, [Begin(i, r, now), Send(i, true), FailSend(i)]),
                         i, r, FailureOf(r.requestId, r.generation, PeerOffline))
  {
    hide RuntimeId, Bounded, SlotInv, OwnerInv, CallInv, After;
    Registers(generation, capacity, i, r, now);
    ThreeSteps(generation, capacity, Begin(i, r, now), Send(i, true), FailSend(i));
  }

  lemma ThreeSteps(generation: nat, capacity: nat, a: Step, b: Step, c: Step)
    ensures Inv(NewConn(generation, capacity)) && Inv(Next(NewConn(generation, capacity), a))
    ensures Inv(Next(Next(NewConn(generation, capacity), a), b))
    ensures After(generation, capacity, [a, b, c]) == Next(Next(Next(NewConn(generation, capacity), a), b), c)
  {
    hide Next, SlotInv, OwnerInv, CallInv;
    assert [a, b, c][..2] == [a, b] && [a, b][..1] == [a] && [a][..0] == [];
    assert After(generation, capacity, []) == NewConn(generation, capacity);
    assert After(generation, capacity, [a]) == Next(NewConn(generation, capacity), a);
    assert After(generation, capacity, [a, b]) == Next(Next(NewConn(generation, capacity), a), b);
  }

  /** Once another call has registered the ID, the timeout of the first one takes that call's entry. */
  lemma TimeoutHitsOther(c: Conn, i: nat, j: nat, r: RuntimeRequest, q: RuntimeRequest, now: int, outcome: Outcome)
    requires Inv(c) && IsClaimedFor(c, i, r, outcome) && i != j && q.Validate(now)
    requires q.requestId == r.requestId && q.generation == r.generation
    requires outcome != FailureOf(r.requestId, r.generation, Timeout)
    ensures var c' := Next(Next(c, Begin(j, q, now)), ContextEnds(i));
      i in c'.calls && !ReturnsOwn(c', i)
  {
    hide RuntimeId, Bounded, SlotInv, OwnerInv, CallInv;
    SecondRegisters(c, i, j, r, q, now, outcome);
    hide RegisterStep;
    var second := Next(c, Begin(j, q, now));
    assert Claiming(second, FailureOf(r.requestId, r.generation, Timeout)).1;
  }

  lemma SecondRegisters(c: Conn, i: nat, j: nat, r: RuntimeRequest, q: RuntimeRequest, now: int, outcome: Outcome)
    requires Inv(c) && IsClaimedFor(c, i, r, outcome) && i != j && q.Validate(now)
    requires q.requestId == r.requestId && q.generation == r.generation
    ensures var second := Next(c, Begin(j, q, now));
      && second.generation == c.generation && second.claimed == c.claimed && RuntimeId(r.requestId) && r.generation != 0
      && second.table == Table(map[r.requestId := 1], c.table.slots + [Slot(r.requestId, r.generation, [], false)])
      && second.table.Valid() && i in second.calls && second.calls[i] == Call(r, Waiting(0))
  {
    hide RuntimeId, Bounded, SlotInv, OwnerInv, CallInv;
  }

  /** If a second call registers a request ID while the first one's result is on its way to it, the first call's
      timeout takes the second one's entry: it returns a timeout although its own outcome is the result. */
  lemma ReusedIdMisleads(generation: nat, capacity: nat, i: nat, j: nat, r: RuntimeRequest, q: RuntimeRequest,
                         start: int, now: int, result: RuntimeResult)
    requires capacity > 0 && i != j && r.Validate(start) && q.Validate(now)
    requires r.requestId == q.requestId == result.requestId && r.generation == q.generation == generation
    requires result.Validate() && result.generation == generation
    ensures var steps := [Begin(i, r, start), Send(i, false), Incoming(ResultOutcome(result)), Begin(j, q, now),
                          ContextEnds(i)];
      var c := After(generation, capacity, steps);
      i in c.calls && !ReturnsOwn(c, i)
  {
    hide RuntimeId, Bounded, Next, ReturnsOwn, SlotInv, OwnerInv, CallInv, IsClaimedFor;
    var first := [Begin(i, r, start), Send(i, false), Incoming(ResultOutcome(result))];
    ResultIsClaimed(generation, capacity, i, r, start, result);
    TimeoutHitsOther(After(generation, capacity, first), i, j, r, q, now, ResultOutcome(result));
    TwoMoreSteps(generation, capacity, first, Begin(j, q, now), ContextEnds(i));
    assert first + [Begin(j, q, now), ContextEnds(i)]
      == [Begin(i, r, start), Send(i, false), Incoming(ResultOutcome(result)), Begin(j, q, now), ContextEnds(i)];
  }

  lemma TwoMoreSteps(generation: nat, capacity: nat, steps: seq<Step>, a: Step, b: Step)
    ensures Inv(Next(After(generation, capacity, steps), a))
    ensures After(generation, capacity, steps + [a, b]) == Next(Next(After(generation, capacity, steps), a), b)
  {
    hide Next, SlotInv, OwnerInv, CallInv;
    assert (steps + [a])[..|steps|] == steps;
    assert After(generation, capacity, steps + [a]) == Next(After(generation, capacity, steps), a);
    assert (steps + [a, b])[..|steps| + 1] == steps + [a];
  }

  /** The requests of the calls; a call that begins makes the request planned for it. */
  type Plan = map<nat, RuntimeRequest>

  ghost predicate Follows(steps: seq<Step>, plan: Plan) {
    forall i :: 0 <= i < |steps| && steps[i].Begin? ==>
      steps[i].call in plan && steps[i].request == plan[steps[i].call]
  }

  /** The request is for this connection and valid at some time. */
  ghost predicate CanRegister(generation: nat, r: RuntimeRequest) {
    r.generation == generation && exists now: int :: r.Validate(now)
  }

  /** No two calls that can register have the same request ID. */
  ghost predicate NoIdIsShared(generation: nat, plan: Plan) {
    forall i, j | i in plan && j in plan && i != j && CanRegister(generation, plan[i]) && CanRegister(generation, plan[j]) ::
      plan[i].requestId != plan[j].requestId
  }

  /** In no run of these calls does one of them return an outcome that is not the one of its own entry. */
  ghost predicate AllReturnOwn(generation: nat, capacity: nat, plan: Plan) {
    forall steps: seq<Step>, call: nat |
      Follows(steps, plan) && call in After(generation, capacity, steps).calls ::
      ReturnsOwn(After(generation, capacity, steps), call)
  }

  ghost predicate KeepsTo(c: Conn, generation: nat, plan: Plan) {
    && c.generation == generation
    && forall call :: call in c.calls ==>
         && call in plan && c.calls[call].request == plan[call]
         && (c.calls[call].pc.Ticket().Some? ==> CanRegister(generation, plan[call]))
  }

  lemma StepKeepsTo(c: Conn, step: Step, generation: nat, plan: Plan)
    requires Inv(c) && KeepsTo(c, generation, plan)
    requires step.Begin? ==> step.call in plan && step.request == plan[step.call]
    ensures KeepsTo(Next(c, step), generation, plan)
  {
    hide RuntimeId, Bounded, Next, SlotInv, OwnerInv, CallInv;
    GenerationStays(c, step);
    forall call | call in Next(c, step).calls
      ensures call in plan && Next(c, step).calls[call].request == plan[call]
      ensures Next(c, step).calls[call].pc.Ticket().Some? ==> CanRegister(generation, plan[call])
    {
      if call in c.calls {
        CallStays(c, step, call);
      } else {
        NewCallBegins(c, step, call);
        if step.request.Validate(step.now) { assert plan[call].Validate(step.now); }
      }
    }
  }

  lemma GenerationStays(c: Conn, step: Step)
    requires Inv(c)
    ensures Next(c, step).generation == c.generation
  {
    hide RuntimeId, Bounded, Claiming, ClaimAll, RegisterStep, Deliver, SlotInv, OwnerInv, CallInv;
    GenerationSurvivesClaims(c);
  }

  lemma GenerationSurvivesClaims(c: Conn)
    requires Inv(c)
    ensures forall outcome :: Claiming(c, outcome).0.generation == c.generation
  {
    hide RuntimeId, Bounded;
  }

  lemma NewCallBegins(c: Conn, step: Step, call: nat)
    requires Inv(c) && call in Next(c, step).calls && call !in c.calls
    ensures step.Begin? && step.call == call && Next(c, step).calls[call].request == step.request
    ensures Next(c, step).calls[call].pc.Ticket().Some? ==>
      step.request.generation == c.generation && step.request.Validate(step.now)
  {
    hide RuntimeId, Bounded, Claiming, ClaimAll, RegisterStep, Deliver, SlotInv, OwnerInv, CallInv;
  }

  lemma {:induction false} RunKeepsTo(generation: nat, capacity: nat, steps: seq<Step>, plan: Plan)
    requires Follows(steps, plan)
    ensures KeepsTo(After(generation, capacity, steps), generation, plan)
  {
    hide Next, SlotInv, OwnerInv, CallInv, KeepsTo;
    if steps != [] {
      RunKeepsTo(generation, capacity, steps[..|steps| - 1], plan);
      StepKeepsTo(After(generation, capacity, steps[..|steps| - 1]), steps[|steps| - 1], generation, plan);
    } else {
      NothingKeepsTo(generation, capacity, plan);
    }
  }

  lemma NothingKeepsTo(generation: nat, capacity: nat, plan: Plan)
    ensures KeepsTo(NewConn(generation, capacity), generation, plan)
  {
  }

  lemma SharedIdMisleads(generation: nat, capacity: nat, plan: Plan, i: nat, j: nat)
    requires i in plan && j in plan && i != j && plan[i].requestId == plan[j].requestId
    requires CanRegister(generation, plan[i]) && CanRegister(generation, plan[j])
    ensures !AllReturnOwn(generation, capacity, plan)
  {
    hide RuntimeId, Bounded, Next, ReturnsOwn, SlotInv, OwnerInv, CallInv, IsClaimedFor;
    var start: int :| plan[i].Validate(start);
    var now: int :| plan[j].Validate(now);
    var r, q := plan[i], plan[j];
    var first := [Begin(i, r, start), Send(i, true), FailSend(i)];
    FailureIsClaimed(generation, capacity, i, r, start);
    TimeoutHitsOther(After(generation, capacity, first), i, j, r, q, now, FailureOf(r.requestId, generation, PeerOffline));
    TwoMoreSteps(generation, capacity, first, Begin(j, q, now), ContextEnds(i));
    assert Follows(first + [Begin(j, q, now), ContextEnds(i)], plan);
  }

  /** For every connection and every set of calls: in all their runs each call returns the one outcome of its own
      entry, exactly if no two calls that can register have the same request ID. */
  lemma AllReturnOwnIff(generation: nat, capacity: nat, plan: Plan)
    ensures AllReturnOwn(generation, capacity, plan) <==> NoIdIsShared(generation, plan)
  {
    hide CanRegister, ReturnsOwn, Inv, After;
    if NoIdIsShared(generation, plan) {
      forall steps: seq<Step>, call: nat | Follows(steps, plan) && call in After(generation, capacity, steps).calls
        ensures ReturnsOwn(After(generation, capacity, steps), call)
      {
        RunKeepsTo(generation, capacity, steps, plan);
        CallsReturnTheirOutcome(generation, capacity, steps, call);
      }
    } else {
      var i, j :| i in plan && j in plan && i != j && plan[i].requestId == plan[j].requestId
        && CanRegister(generation, plan[i]) && CanRegister(generation, plan[j]);
      SharedIdMisleads(generation, capacity, plan, i, j);
    }
  }
}
