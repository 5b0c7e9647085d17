/** The Hub's table of requests that wait for an Agent's answer. */
module RequestTracking {
  import opened GoText
  import opened Wrappers
  import opened PeerProtocol

  /** A pending request object: its key, and the channel its caller reads, which holds at most one outcome and is
      closed right after it. */
  datatype Slot = Slot(requestId: Text, generation: nat, outcomes: seq<Outcome>, closed: bool)

  /** `pending` maps request IDs to the slots still waiting; slots are never reused. */
  datatype Table = Table(pending: map<Text, nat>, slots: seq<Slot>) {
    ghost predicate Valid() {
      && (forall id :: id in pending ==> pending[id] < |slots| && slots[pending[id]].requestId == id)
      && (forall id :: id in pending ==> !slots[pending[id]].closed)
      && (forall t :: 0 <= t < |slots| ==> |slots[t].outcomes| == if slots[t].closed then 1 else 0)
    }
  }

  // ---------- One function per locked region, and one for the push that follows it ----------

  function RegisterStep(t: Table, requestId: Text, generation: nat): (Table, Result<nat, RuntimeError>) {
    if requestId in t.pending then (t, Err(RuntimeError(requestId, generation, RequestConflict)))
    else
      (Table(t.pending[requestId := |t.slots|], t.slots + [Slot(requestId, generation, [], false)]), Ok(|t.slots|))
  }

  /** The locked part of `complete`: whoever takes the entry out of the table owns its one outcome. */
  function Claim(t: Table, requestId: Text, generation: nat): (Table, Option<nat>)
    requires t.Valid()
  {
    if requestId in t.pending && t.slots[t.pending[requestId]].generation == generation then
      (t.(pending := t.pending - {requestId}), Some(t.pending[requestId]))
    else (t, None)
  }

  predicate Selected(t: Table, requestId: Text, generation: nat)
    requires t.Valid()
  {
    requestId in t.pending && t.slots[t.pending[requestId]].generation == generation
  }

  /** The locked part of `FailAll`. */
  function ClaimAll(t: Table, generation: nat): (Table, map<Text, nat>)
    requires t.Valid()
  {
    (t.(pending := map id | id in t.pending && !Selected(t, id, generation) :: t.pending[id]),
     map id | id in t.pending && Selected(t, id, generation) :: t.pending[id])
  }

  /** Only the first push into a slot has an effect. */
  function Deliver(t: Table, ticket: nat, outcome: Outcome): Table
    requires ticket < |t.slots|
  {
    var slot := t.slots[ticket];
    if slot.closed then t
    else t.(slots := t.slots[ticket := slot.(outcomes := slot.outcomes + [outcome], closed := true)])
  }

  // ---------- The calls of one thread ----------

  function CompleteStep(t: Table, requestId: Text, generation: nat, outcome: Outcome): (Table, bool)
    requires t.Valid()
  {
    var (claimed, ticket) := Claim(t, requestId, generation);
    if ticket.None? then (t, false) else (Deliver(claimed, ticket.value, outcome), true)
  }

  function FailureOf(requestId: Text, generation: nat, code: ErrorCode): Outcome {
    ErrorOutcome(RuntimeError(requestId, generation, code))
  }

  /** The selected slots with the error pushed and the channel closed. */
  function Filled(slots: seq<Slot>, selected: map<Text, nat>, generation: nat, code: ErrorCode): seq<Slot> {
    seq(|slots|, i requires 0 <= i < |slots| =>
      var slot := slots[i];
      if slot.requestId in selected && selected[slot.requestId] == i then
        slot.(outcomes := [FailureOf(slot.requestId, generation, code)], closed := true)
      else slot)
  }

  /** Every waiting slot of the generation gets the error, the others and those already answered stay as they are. */
  function FailAllStep(t: Table, generation: nat, code: ErrorCode): Table
    requires t.Valid()
  {
    var (claimed, selected) := ClaimAll(t, generation);
    claimed.(slots := Filled(t.slots, selected, generation, code))
  }

  class RequestTracker {
    var pending: map<Text, nat>
    var slots: seq<Slot>

    ghost function View(): Table
      reads this
    {
      Table(pending, slots)
    }

    ghost predicate Valid()
      reads this
    {
      View().Valid()
    }

    constructor ()
      ensures Valid() && View() == Table(map[], [])
    {
      pending, slots := map[], [];
    }

    method Register(request: RuntimeRequest) returns (r: Result<nat, RuntimeError>)
      requires Valid()
      modifies this
      ensures Valid()
      ensures (View(), r) == RegisterStep(old(View()), request.requestId, request.generation)
    {
      if request.requestId in pending {
        return Err(RuntimeError(request.requestId, request.generation, RequestConflict));
      }
      pending := pending[request.requestId := |slots|];
      slots := slots + [Slot(request.requestId, request.generation, [], false)];
      return Ok(|slots| - 1);
    }

    /** An acknowledgement is not an outcome: it leaves the table alone. */
    method Accept(requestId: Text, generation: nat, accepted: bool) returns (known: bool)
      requires Valid()
      ensures known == (RuntimeId(requestId) && generation != 0 && accepted && Selected(View(), requestId, generation))
    {
      if !RuntimeId(requestId) || generation == 0 || !accepted {
        return false;
      }
      return requestId in pending && slots[pending[requestId]].generation == generation;
    }

    method CompleteResult(result: RuntimeResult) returns (completed: bool)
      requires Valid()
      modifies this
      ensures Valid()
      ensures (View(), completed) ==
        if result.Validate() then CompleteStep(old(View()), result.requestId, result.generation, ResultOutcome(result))
        else (old(View()), false)
    {
      if !result.Validate() {
        return false;
      }
      completed := Complete(result.requestId, result.generation, ResultOutcome(result));
    }

    method CompleteError(error: RuntimeError) returns (completed: bool)
      requires Valid()
      modifies this
      ensures Valid()
      ensures (View(), completed) ==
        if error.ValidateCorrelated() then CompleteStep(old(View()), error.requestId, error.generation, ErrorOutcome(error))
        else (old(View()), false)
    {
      if !error.ValidateCorrelated() {
        return false;
      }
      completed := Complete(error.requestId, error.generation, ErrorOutcome(error));
    }

    method Complete(requestId: Text, generation: nat, outcome: Outcome) returns (completed: bool)
      requires Valid()
      modifies this
      ensures Valid()
      ensures (View(), completed) == CompleteStep(old(View()), requestId, generation, outcome)
    {
      if requestId !in pending || slots[pending[requestId]].generation != generation {
        return false;
      }
      var ticket := pending[requestId];
      pending := pending - {requestId};
      completed := false;
      if !slots[ticket].closed {
        slots := slots[ticket := slots[ticket].(outcomes := slots[ticket].outcomes + [outcome], closed := true)];
        completed := true;
      }
    }

    method FailAll(generation: nat, code: ErrorCode)
      requires Valid()
      modifies this
      ensures Valid()
      ensures View() == FailAllStep(old(View()), generation, code)
    {
      var selected := TakeAll(generation);
      PushErrors(selected, generation, code);
    }

    method PushErrors(selected: map<Text, nat>, generation: nat, code: ErrorCode)
      requires forall id :: id in selected ==>
        && selected[id] < |slots| && slots[selected[id]].requestId == id
        && !slots[selected[id]].closed && slots[selected[id]].outcomes == []
      modifies this`slots
      ensures slots == Filled(old(slots), selected, generation, code)
    {
      ghost var was := slots;
      var rest := selected.Keys;
      while rest != {}
        invariant rest <= selected.Keys && |slots| == |was|
        invariant forall i :: 0 <= i < |slots| ==>
          slots[i] == if was[i].requestId in rest then was[i] else Filled(was, selected, generation, code)[i]
        decreases rest
      {
        var id :| id in rest;
        var ticket := selected[id];
        if !slots[ticket].closed {
          slots := slots[ticket := slots[ticket].(
            outcomes := slots[ticket].outcomes + [FailureOf(id, generation, code)], closed := true)];
        }
        rest := rest - {id};
      }
    }

    /** The locked part of FailAll. */
    method TakeAll(generation: nat) returns (selected: map<Text, nat>)
      requires Valid()
      modifies this`pending
      ensures (View(), selected) == ClaimAll(old(View()), generation)
    {
      selected := map[];
      var rest := pending.Keys;
      while rest != {}
        invariant rest <= pending.Keys <= old(pending).Keys
        invariant forall id :: id in pending <==>
          id in old(pending) && (id in rest || !Selected(old(View()), id, generation))
        invariant forall id :: id in pending ==> pending[id] == old(pending)[id]
        invariant forall id :: id in selected <==>
          id in old(pending) && id !in rest && Selected(old(View()), id, generation)
        invariant forall id :: id in selected ==> selected[id] == old(pending)[id]
        decreases rest
      {
        var id :| id in rest;
        if slots[pending[id]].generation == generation {
          selected := selected[id := pending[id]];
          pending := pending - {id};
        }
        rest := rest - {id};
      }
      ghost var (claimed, expected) := ClaimAll(old(View()), generation);
      assert pending == claimed.pending && selected == expected;
    }
  }
}
