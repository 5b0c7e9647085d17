/** The normalised state of the Hub: flat maps keyed by stable keys, and the typed operations on them. */
module StateProjection {
  import opened GoText
  import opened Wrappers

  /** Points in time and JSON values matter only through equality. */
  type Time = int
  type Json = Text

  const SCHEMA_VERSION := 1

  datatype Host = Host(
    key: Text, id: Text, displayName: Text, online: bool, local: bool, version: Text, lastSeen: Time)

  datatype Session = Session(
    key: Text, hostKey: Text, hostId: Text, name: Text, tmuxId: Text, attached: bool, created: Time, lastActivity: Time)

  datatype Window = Window(
    key: Text, sessionKey: Text, tmuxId: Text, name: Text, index: int, active: bool, layout: Text)

  datatype Pane = Pane(
    key: Text, windowKey: Text, tmuxId: Text, index: int, active: bool, width: int, height: int,
    currentCommand: Text, pid: int)

  datatype ToolEvent = ToolEvent(
    key: Text, hostId: Text, session: Text, window: Text, pane: Text, tool: Text, status: Text, message: Text,
    timestamp: Time, autoDetected: bool)

  datatype Activity = Activity(
    key: Text, hostId: Text, session: Text, window: Text, pane: Text, timestamp: Time, data: Json)

  datatype Health = Health(hostKey: Text, lastStateSync: Time, facts: map<Text, Json>)

  datatype Projection = Projection(
    hosts: map<Text, Host>,
    sessions: map<Text, Session>,
    windows: map<Text, Window>,
    panes: map<Text, Pane>,
    toolEvents: map<Text, ToolEvent>,
    activity: map<Text, Activity>,
    health: map<Text, Health>,
    metadata: map<Text, Text>)

  const EMPTY := Projection(map[], map[], map[], map[], map[], map[], map[], map[])

  datatype Kind =
    | UpsertHost | RemoveHost
    | UpsertSession | RemoveSession
    | UpsertWindow | RemoveWindow
    | UpsertPane | RemovePane
    | UpsertToolEvent | RemoveToolEvent
    | UpsertActivity | RemoveActivity
    | UpsertHealth | RemoveHealth
    | SetMetadata | RemoveMetadata
    | UnknownKind(name: Text)

  /** A raw JSON text, together with the JSON parser's verdict on it. */
  datatype RawJson = RawJson(text: Text, wellFormed: bool)

  datatype OperationError =
    | ValueRequired | RemoveKeyPresent | KeyRequired | KeyAndValueRequired | InvalidJson | UnknownOperation

  /** Every field of the wire struct is present, whatever the kind; absent pointers are None. */
  datatype Operation = Operation(
    kind: Kind, key: Text := "",
    host: Option<Host> := None, session: Option<Session> := None, window: Option<Window> := None,
    pane: Option<Pane> := None, toolEvent: Option<ToolEvent> := None, activity: Option<Activity> := None,
    health: Option<Health> := None, metadata: RawJson := RawJson("", false))
  {
    predicate IsUpsert() {
      kind.UpsertHost? || kind.UpsertSession? || kind.UpsertWindow? || kind.UpsertPane? || kind.UpsertToolEvent?
      || kind.UpsertActivity? || kind.UpsertHealth?
    }

    /** An operation on tool events, activity, health or metadata. */
    predicate OffTree() {
      kind.UpsertToolEvent? || kind.RemoveToolEvent? || kind.UpsertActivity? || kind.RemoveActivity?
      || kind.UpsertHealth? || kind.RemoveHealth? || kind.SetMetadata? || kind.RemoveMetadata?
    }

    predicate HasTypedValue() {
      match kind
      case UpsertHost => host.Some?
      case UpsertSession => session.Some?
      case UpsertWindow => window.Some?
      case UpsertPane => pane.Some?
      case UpsertToolEvent => toolEvent.Some?
      case UpsertActivity => activity.Some?
      case UpsertHealth => health.Some?
      case _ => false
    }

    function Validate(): Option<OperationError> {
      if IsUpsert() then
        if !HasTypedValue() then Some(ValueRequired)
        else if key != "" then Some(RemoveKeyPresent)
        else None
      else
        match kind
        case SetMetadata =>
          if Blank(key) || metadata.text == "" then Some(KeyAndValueRequired)
          else if !metadata.wellFormed then Some(InvalidJson)
          else None
        case UnknownKind(_) => Some(UnknownOperation)
        case _ => if Blank(key) then Some(KeyRequired) else None
    }
  }

  // ---------- What an operation does to each map ----------

  function HostsAfter(hosts: map<Text, Host>, op: Operation): map<Text, Host>
    requires op.Validate().None?
  {
    match op.kind
    case UpsertHost => hosts[op.host.value.key := op.host.value]
    case RemoveHost => hosts - {op.key}
    case _ => hosts
  }

  function SessionsAfter(sessions: map<Text, Session>, op: Operation): map<Text, Session>
    requires op.Validate().None?
  {
    match op.kind
    case UpsertSession => sessions[op.session.value.key := op.session.value]
    case RemoveSession => sessions - {op.key}
    case _ => sessions
  }

  function WindowsAfter(windows: map<Text, Window>, op: Operation): map<Text, Window>
    requires op.Validate().None?
  {
    match op.kind
    case UpsertWindow => windows[op.window.value.key := op.window.value]
    case RemoveWindow => windows - {op.key}
    case _ => windows
  }

  function PanesAfter(panes: map<Text, Pane>, op: Operation): map<Text, Pane>
    requires op.Validate().None?
  {
    match op.kind
    case UpsertPane => panes[op.pane.value.key := op.pane.value]
    case RemovePane => panes - {op.key}
    case _ => panes
  }

  function ToolEventsAfter(toolEvents: map<Text, ToolEvent>, op: Operation): map<Text, ToolEvent>
    requires op.Validate().None?
  {
    match op.kind
    case UpsertToolEvent => toolEvents[op.toolEvent.value.key := op.toolEvent.value]
    case RemoveToolEvent => toolEvents - {op.key}
    case _ => toolEvents
  }

  function ActivityAfter(activity: map<Text, Activity>, op: Operation): map<Text, Activity>
    requires op.Validate().None?
  {
    match op.kind
    case UpsertActivity => activity[op.activity.value.key := op.activity.value]
    case RemoveActivity => activity - {op.key}
    case _ => activity
  }

  function HealthAfter(health: map<Text, Health>, op: Operation): map<Text, Health>
    requires op.Validate().None?
  {
    match op.kind
    case UpsertHealth => health[op.health.value.hostKey := op.health.value]
    case RemoveHealth => health - {op.key}
    case _ => health
  }

  function MetadataAfter(metadata: map<Text, Text>, op: Operation): map<Text, Text>
    requires op.Validate().None?
  {
    match op.kind
    case SetMetadata => metadata[op.key := op.metadata.text]
    case RemoveMetadata => metadata - {op.key}
    case _ => metadata
  }

  function ApplyOperation(p: Projection, op: Operation): Projection
    requires op.Validate().None?
  {
    Projection(HostsAfter(p.hosts, op), SessionsAfter(p.sessions, op), WindowsAfter(p.windows, op),
               PanesAfter(p.panes, op), ToolEventsAfter(p.toolEvents, op), ActivityAfter(p.activity, op),
               HealthAfter(p.health, op), MetadataAfter(p.metadata, op))
  }

  /** An operation on tool events, activity, health or metadata leaves the host tree alone. */
  lemma OffTreeKeepsTree(p: Projection, op: Operation)
    requires op.Validate().None? && op.OffTree()
    ensures var r := ApplyOperation(p, op);
      r.hosts == p.hosts && r.sessions == p.sessions && r.windows == p.windows && r.panes == p.panes
  {
    hide Operation.Validate;
  }

  datatype Fault = Fault(index: nat, error: OperationError)

  /** A batch is applied operation by operation; the first invalid one fails the whole batch. */
  function Evaluate(p: Projection, operations: seq<Operation>): Result<Projection, Fault> {
    if operations == [] then Ok(p) else
      var last := |operations| - 1;
      match Evaluate(p, operations[..last])
      case Err(fault) => Err(fault)
      case Ok(before) =>
        match operations[last].Validate()
        case Some(error) => Err(Fault(last, error))
        case None => Ok(ApplyOperation(before, operations[last]))
  }

  ghost predicate AllValid(operations: seq<Operation>) {
    forall i :: 0 <= i < |operations| ==> operations[i].Validate().None?
  }

  /** Whether a batch fails does not depend on the state it meets, and it fails at its first invalid operation. */
  lemma {:induction false} EvaluateFails(p: Projection, operations: seq<Operation>)
    ensures Evaluate(p, operations).Ok? <==> AllValid(operations)
    ensures var r := Evaluate(p, operations);
      r.Err? ==> && r.error.index < |operations|
                 && operations[r.error.index].Validate() == Some(r.error.error)
                 && AllValid(operations[..r.error.index])
  {
    hide ApplyOperation, Blank;
    if operations != [] {
      var last := |operations| - 1;
      EvaluateFails(p, operations[..last]);
      var r := Evaluate(p, operations[..last]);
      if r.Err? {
        assert operations[..last][..r.error.index] == operations[..r.error.index];
      }
      assert AllValid(operations) <==> AllValid(operations[..last]) && operations[last].Validate().None?;
    }
  }

  lemma {:induction false} EvaluateAppend(p: Projection, a: seq<Operation>, b: seq<Operation>)
    requires AllValid(a) && AllValid(b)
    ensures Evaluate(p, a).Ok? && Evaluate(Evaluate(p, a).value, b).Ok?
    ensures Evaluate(p, a + b) == Evaluate(Evaluate(p, a).value, b)
  {
    hide ApplyOperation, Blank;
    EvaluateFails(p, a);
    EvaluateFails(Evaluate(p, a).value, b);
    if b == [] {
      assert a + b == a;
    } else {
      var last := |b| - 1;
      EvaluateAppend(p, a, b[..last]);
      assert (a + b)[..|a + b| - 1] == a + b[..last];
    }
  }
}
