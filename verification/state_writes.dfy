/** Which operations are valid, what they look at, and what a batch of them leaves under a key. */
module StateWrites {
  import opened GoText
  import opened Wrappers
  import opened StateProjection

  // ---------- Valid operations ----------

  /** An upsert needs the value of its own kind and must not name a key; a removal needs a key that is not blank;
      metadata need such a key and a well-formed JSON text. */
  ghost predicate MayBeApplied(op: Operation) {
    match op.kind
    case UpsertHost => op.host.Some? && op.key == ""
    case UpsertSession => op.session.Some? && op.key == ""
    case UpsertWindow => op.window.Some? && op.key == ""
    case UpsertPane => op.pane.Some? && op.key == ""
    case UpsertToolEvent => op.toolEvent.Some? && op.key == ""
    case UpsertActivity => op.activity.Some? && op.key == ""
    case UpsertHealth => op.health.Some? && op.key == ""
    case SetMetadata => !Blank(op.key) && op.metadata.text != "" && op.metadata.wellFormed
    case UnknownKind(_) => false
    case _ => !Blank(op.key)
  }

  /** One operation is accepted exactly if it may be applied; the error names what is missing. */
  lemma SingleOperation(p: Projection, op: Operation)
    ensures Evaluate(p, [op]).Ok? <==> MayBeApplied(op)
    ensures Evaluate(p, [op]).Err? ==>
      Evaluate(p, [op]).error == Fault(0,
        if op.kind.UnknownKind? then UnknownOperation
        else if op.IsUpsert() then (if op.key != "" && MayBeApplied(op.(key := "")) then RemoveKeyPresent else ValueRequired)
        else if !op.kind.SetMetadata? then KeyRequired
        else if Blank(op.key) || op.metadata.text == "" then KeyAndValueRequired
        else InvalidJson)
  {
    hide Blank;
    assert [op][..0] == [] && Evaluate(p, []) == Ok(p);
  }

  /** The operation without everything that its kind does not use. */
  function Stripped(op: Operation): Operation {
    match op.kind
    case UpsertHost => Operation(op.kind, op.key, host := op.host)
    case UpsertSession => Operation(op.kind, op.key, session := op.session)
    case UpsertWindow => Operation(op.kind, op.key, window := op.window)
    case UpsertPane => Operation(op.kind, op.key, pane := op.pane)
    case UpsertToolEvent => Operation(op.kind, op.key, toolEvent := op.toolEvent)
    case UpsertActivity => Operation(op.kind, op.key, activity := op.activity)
    case UpsertHealth => Operation(op.kind, op.key, health := op.health)
    case SetMetadata => Operation(op.kind, op.key, metadata := op.metadata)
    case _ => Operation(op.kind, op.key)
  }

  lemma StrippedIsAsValid(op: Operation)
    ensures Stripped(op).Validate() == op.Validate()
  {
    hide Blank;
  }

  lemma StrippedDoesTheSame(p: Projection, op: Operation)
    requires op.Validate().None? && Stripped(op).Validate().None?
    ensures HostsAfter(p.hosts, op) == HostsAfter(p.hosts, Stripped(op))
    ensures SessionsAfter(p.sessions, op) == SessionsAfter(p.sessions, Stripped(op))
    ensures WindowsAfter(p.windows, op) == WindowsAfter(p.windows, Stripped(op))
    ensures PanesAfter(p.panes, op) == PanesAfter(p.panes, Stripped(op))
  {
    hide Operation.Validate;
  }

  lemma StrippedDoesTheSameOffTree(p: Projection, op: Operation)
    requires op.Validate().None? && Stripped(op).Validate().None?
    ensures ToolEventsAfter(p.toolEvents, op) == ToolEventsAfter(p.toolEvents, Stripped(op))
    ensures ActivityAfter(p.activity, op) == ActivityAfter(p.activity, Stripped(op))
    ensures HealthAfter(p.health, op) == HealthAfter(p.health, Stripped(op))
    ensures MetadataAfter(p.metadata, op) == MetadataAfter(p.metadata, Stripped(op))
  {
    hide Operation.Validate;
  }

  /** Values of other kinds are neither refused nor looked at. */
  lemma OtherValuesAreIgnored(p: Projection, op: Operation)
    ensures Evaluate(p, [op]) == Evaluate(p, [Stripped(op)])
  {
    hide Operation.Validate, Stripped;
    assert [op][..0] == [] && [Stripped(op)][..0] == [];
    StrippedIsAsValid(op);
    if op.Validate().None? {
      StrippedDoesTheSame(p, op);
      StrippedDoesTheSameOffTree(p, op);
    }
  }

  // ---------- The last write wins ----------

  function Found<V>(m: map<Text, V>, key: Text): Option<V> {
    if key in m then Some(m[key]) else None
  }

  /** What an operation writes under a key of one of the maps: None if it leaves the key alone, Some(None) if it removes
      it. */
  type Write<!V> = Operation -> Option<Option<V>>

  ghost predicate Writes<V(!new)>(get: Projection -> map<Text, V>, key: Text, write: Write<V>) {
    forall p: Projection, op: Operation | op.Validate().None? ::
      Found(get(ApplyOperation(p, op)), key) == if write(op).Some? then write(op).value else Found(get(p), key)
  }

  ghost predicate IsLastWrite<V>(operations: seq<Operation>, write: Write<V>, i: int) {
    && 0 <= i < |operations| && write(operations[i]).Some?
    && forall j :: i < j < |operations| ==> write(operations[j]).None?
  }

  lemma {:induction false} LastWriteWins<V(!new)>(
    get: Projection -> map<Text, V>, key: Text, write: Write<V>, p: Projection, operations: seq<Operation>)
    requires Writes(get, key, write) && Evaluate(p, operations).Ok?
    ensures var found := Found(get(Evaluate(p, operations).value), key);
      && (forall i :: IsLastWrite(operations, write, i) ==> found == write(operations[i]).value)
      && ((forall i :: 0 <= i < |operations| ==> write(operations[i]).None?) ==> found == Found(get(p), key))
  {
    hide ApplyOperation, Operation.Validate;
    if operations != [] {
      var n := |operations| - 1;
      LastWriteWins(get, key, write, p, operations[..n]);
      var before := Evaluate(p, operations[..n]).value;
      assert Evaluate(p, operations).value == ApplyOperation(before, operations[n]);
      forall i | IsLastWrite(operations, write, i) && i < n ensures IsLastWrite(operations[..n], write, i) {
        forall j | i < j < n ensures write(operations[..n][j]).None? {
          assert operations[..n][j] == operations[j];
        }
      }
    }
  }

  function MetadataWrite(key: Text): Write<Text> {
    (op: Operation) =>
      if op.key != key then None
      else if op.kind.SetMetadata? then Some(Some(op.metadata.text))
      else if op.kind.RemoveMetadata? then Some(None)
      else None
  }

  /** After an accepted batch, a metadata key holds what its last writer in the batch set, or nothing if that removed
      it; without a writer it is as before. */
  lemma MetadataIsLastWritten(p: Projection, operations: seq<Operation>, key: Text)
    requires Evaluate(p, operations).Ok?
    ensures var write, found := MetadataWrite(key), Found(Evaluate(p, operations).value.metadata, key);
      && (forall i :: IsLastWrite(operations, write, i) ==> found == write(operations[i]).value)
      && ((forall i :: 0 <= i < |operations| ==> write(operations[i]).None?) ==> found == Found(p.metadata, key))
  {
    var get := (p: Projection) => p.metadata;
    assert Writes(get, key, MetadataWrite(key)) by { hide Operation.Validate, Blank; }
    LastWriteWins(get, key, MetadataWrite(key), p, operations);
  }

  function HealthWrite(key: Text): Write<Health> {
    (op: Operation) =>
      if op.kind.UpsertHealth? && op.health.Some? && op.health.value.hostKey == key then Some(Some(op.health.value))
      else if op.kind.RemoveHealth? && op.key == key then Some(None)
      else None
  }

  /** The same for the health of a host, which is filed under that host's key. */
  lemma HealthIsLastWritten(p: Projection, operations: seq<Operation>, key: Text)
    requires Evaluate(p, operations).Ok?
    ensures var write, found := HealthWrite(key), Found(Evaluate(p, operations).value.health, key);
      && (forall i :: IsLastWrite(operations, write, i) ==> found == write(operations[i]).value)
      && ((forall i :: 0 <= i < |operations| ==> write(operations[i]).None?) ==> found == Found(p.health, key))
  {
    var get := (p: Projection) => p.health;
    assert Writes(get, key, HealthWrite(key)) by { hide Blank; }
    LastWriteWins(get, key, HealthWrite(key), p, operations);
  }
}
