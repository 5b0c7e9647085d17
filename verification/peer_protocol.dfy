/** The runtime protocol between the Hub and its Agents: messages, their checks, and the hello negotiation. */
module PeerProtocol {
  import opened GoText
  import opened Wrappers
  import opened Sorting

  const PROTOCOL_MIN := 1
  const PROTOCOL_MAX := 1
  const MAX_RUNTIME_ID := 128
  const MAX_OPERATION := 64
  const MAX_BUILD := 128
  const MAX_PAYLOAD := 0x10000
  const MAX_CAPABILITIES := 32
  const CAPABILITIES: seq<Text> := ["state-sync", "session-actions", "request-results", "pty-control"]

  // ---------- Texts ----------

  /** s is the UTF-8 encoding of one control character. */
  predicate ControlRune(s: Text) {
    if |s| == 1 then s[0] as int < 0x20 || s[0] as int == 0x7F
    else |s| == 2 && s[0] as int == 0xC2 && 0x80 <= s[1] as int <= 0x9F
  }

  predicate RuneAt(value: Text, i: nat, rune: Text -> bool) {
    || (i + 1 <= |value| && rune(value[i..i + 1]))
    || (i + 2 <= |value| && rune(value[i..i + 2]))
    || (i + 3 <= |value| && rune(value[i..i + 3]))
  }

  predicate HasRune(value: Text, rune: Text -> bool) {
    exists i :: 0 <= i < |value| && RuneAt(value, i, rune)
  }

  predicate BoundedOptional(value: Text, limit: nat) {
    |value| <= limit && '\0' !in value
  }

  predicate Bounded(value: Text, limit: nat) {
    value != "" && BoundedOptional(value, limit)
  }

  predicate RuntimeId(value: Text) {
    Bounded(value, MAX_RUNTIME_ID) && !HasRune(value, SpaceRune) && !HasRune(value, ControlRune)
  }

  lemma AsciiRunes(value: Text, i: nat)
    requires Ascii(value) && i < |value|
    ensures RuneAt(value, i, SpaceRune) <==> AsciiSpace(value[i])
    ensures RuneAt(value, i, ControlRune) <==> value[i] as int < 0x20 || value[i] as int == 0x7F
  {
    assert value[i..i + 1] == [value[i]];
    if i + 2 <= |value| { assert value[i..i + 2][0] == value[i]; }
    if i + 3 <= |value| { assert value[i..i + 3][0] == value[i]; }
  }

  /** An ASCII text is an identifier exactly if it is one to 128 printable characters long, without a space. */
  lemma AsciiIdIff(value: Text)
    requires Ascii(value)
    ensures RuntimeId(value) <==> 1 <= |value| <= 128 && forall i :: 0 <= i < |value| ==> 0x21 <= value[i] as int <= 0x7E
  {
    hide SpaceRune, ControlRune, RuneAt;
    forall i | 0 <= i < |value|
      ensures RuneAt(value, i, SpaceRune) || RuneAt(value, i, ControlRune) <==> !(0x21 <= value[i] as int <= 0x7E)
    {
      AsciiRunes(value, i);
    }
  }

  // ---------- Messages ----------

  /** A JSON value counts only up to equality; `isObject` says whether it is one JSON object. */
  datatype Payload = NotJson(size: nat) | JsonValue(size: nat, isObject: bool, value: Text)

  datatype SessionTarget = SessionTarget(hostId: Text, session: Text) {
    predicate Validate() { RuntimeId(hostId) && RuntimeId(session) }
  }

  datatype RuntimeRequest = RuntimeRequest(
    requestId: Text, generation: nat, deadline: int, operation: Text, target: SessionTarget, payload: Payload)
  {
    predicate Validate(now: int) {
      && RuntimeId(requestId)
      && generation != 0
      && deadline > now
      && Bounded(operation, MAX_OPERATION)
      && target.Validate()
      && payload.JsonValue? && payload.isObject && 0 < payload.size <= MAX_PAYLOAD
    }
  }

  datatype RuntimeResult = RuntimeResult(requestId: Text, generation: nat, result: Payload) {
    predicate Validate() {
      RuntimeId(requestId) && generation != 0 && result.JsonValue? && 0 < result.size <= MAX_PAYLOAD
    }
  }

  datatype ErrorCode =
    | InvalidTarget | NotFound | PeerOffline | PeerRevoked | ProtocolIncompatible | CapabilityUnsupported | QueueFull
    | Timeout | ExecutionFailed | ExecutionUnknown | RequestConflict | ResourceExhausted | StaleGeneration
    | UnknownCode(name: Text)

  datatype RuntimeError = RuntimeError(requestId: Text, generation: nat, code: ErrorCode, message: Text := "") {
    predicate ValidateCorrelated() {
      RuntimeId(requestId) && generation != 0 && !code.UnknownCode? && BoundedOptional(message, 256)
    }
  }

  datatype Outcome = ResultOutcome(result: RuntimeResult) | ErrorOutcome(error: RuntimeError)

  // ---------- Hello ----------

  datatype Hello = Hello(
    minVersion: int, maxVersion: int, capabilities: seq<Text>, buildVersion: Text, agentInstance: Text)
  {
    predicate Validate() {
      && 0 < minVersion <= maxVersion
      && ValidCapabilities(capabilities)
      && Bounded(buildVersion, MAX_BUILD)
      && RuntimeId(agentInstance)
    }
  }

  datatype HelloAck = HelloAck(
    version: int, capabilities: seq<Text>, buildVersion: Text, generation: nat, agentInstance: Text)
  {
    predicate Validate() {
      && PROTOCOL_MIN <= version <= PROTOCOL_MAX
      && generation != 0
      && ValidCapabilities(capabilities)
      && Bounded(buildVersion, MAX_BUILD)
      && RuntimeId(agentInstance)
    }
  }

  predicate ValidCapabilities(capabilities: seq<Text>) {
    && |capabilities| <= MAX_CAPABILITIES
    && (forall i :: 0 <= i < |capabilities| ==> Bounded(capabilities[i], 64))
    && (forall i, j :: 0 <= i < j < |capabilities| ==> capabilities[i] != capabilities[j])
  }

  method CheckCapabilities(capabilities: seq<Text>) returns (ok: bool)
    ensures ok == ValidCapabilities(capabilities)
  {
    if |capabilities| > MAX_CAPABILITIES {
      return false;
    }
    var seen: set<Text> := {};
    for i := 0 to |capabilities|
      invariant seen == Elements(capabilities[..i])
      invariant ValidCapabilities(capabilities[..i])
    {
      assert forall j :: 0 <= j < i ==> capabilities[..i][j] == capabilities[j];
      if !Bounded(capabilities[i], 64) {
        return false;
      }
      if capabilities[i] in seen {
        return false;
      }
      seen := seen + {capabilities[i]};
      assert capabilities[..i + 1] == capabilities[..i] + [capabilities[i]];
    }
    assert capabilities[..|capabilities|] == capabilities;
    return true;
  }

  /** The values of `left` that are also in `right`, in the order of `left`. */
  function Intersection(left: seq<Text>, right: seq<Text>): seq<Text> {
    if left == [] then [] else
      var rest, last := left[..|left| - 1], left[|left| - 1];
      if last in right then Intersection(rest, right) + [last] else Intersection(rest, right)
  }

  method IntersectCapabilities(left: seq<Text>, right: seq<Text>) returns (result: seq<Text>)
    ensures result == Intersection(left, right)
  {
    var allowed: set<Text> := {};
    for i := 0 to |right|
      invariant allowed == Elements(right[..i])
    {
      allowed := allowed + {right[i]};
      assert right[..i + 1] == right[..i] + [right[i]];
    }
    assert right[..|right|] == right;
    result := [];
    for i := 0 to |left|
      invariant result == Intersection(left[..i], right)
    {
      assert left[..i + 1][..i] == left[..i];
      assert left[i] in allowed <==> left[i] in right;
      if left[i] in allowed {
        result := result + [left[i]];
      }
    }
    assert left[..|left|] == left;
  }

  /** x stands before y somewhere in the list. */
  ghost predicate IsBefore(s: seq<Text>, x: Text, y: Text) {
    exists i, j :: 0 <= i < j < |s| && s[i] == x && s[j] == y
  }

  /** What comes first in the intersection comes first in `left`. */
  lemma {:induction false} IntersectionKeepsOrder(left: seq<Text>, right: seq<Text>, x: Text, y: Text)
    requires IsBefore(Intersection(left, right), x, y)
    ensures IsBefore(left, x, y)
  {
    var rest, last := left[..|left| - 1], left[|left| - 1];
    var before := Intersection(rest, right);
    var i, j :| 0 <= i < j < |Intersection(left, right)|
                && Intersection(left, right)[i] == x && Intersection(left, right)[j] == y;
    if j < |before| {
      assert IsBefore(before, x, y);
      IntersectionKeepsOrder(rest, right, x, y);
      var k, l :| 0 <= k < l < |rest| && rest[k] == x && rest[l] == y;
      assert left[k] == x && left[l] == y;
    } else {
      IntersectionIsSound(rest, right);
      assert x in before;
      var k :| 0 <= k < |rest| && rest[k] == x;
      assert left[k] == x && left[|left| - 1] == y;
    }
  }

  lemma {:induction false} IntersectionIsSound(left: seq<Text>, right: seq<Text>)
    ensures var r := Intersection(left, right);
      && (forall x :: x in r <==> x in left && x in right)
      && |r| <= |left|
      && (Distinct(left) ==> Distinct(r))
  {
    if left != [] {
      var rest, last := left[..|left| - 1], left[|left| - 1];
      IntersectionIsSound(rest, right);
      assert left == rest + [last];
      if Distinct(left) {
        assert forall i :: 0 <= i < |rest| ==> rest[i] == left[i];
        assert last !in rest;
        var r := Intersection(rest, right);
        assert forall i :: 0 <= i < |r| ==> r[i] in r;
      }
    }
  }

  predicate InRange(v: int, low: int, high: int) { low <= v <= high }

  /** An invalid hello is answered with a plain validation error, versions that do not meet with a typed one. */
  datatype HelloError = InvalidHello | Incompatible(error: RuntimeError)

  function NegotiateHello(hello: Hello, generation: nat, hubBuild: Text): Result<HelloAck, HelloError> {
    if !hello.Validate() then Err(InvalidHello) else
      var low, high := Max(hello.minVersion, PROTOCOL_MIN), Min(hello.maxVersion, PROTOCOL_MAX);
      if low > high then
        Err(Incompatible(RuntimeError("", 0, ProtocolIncompatible, "no common runtime protocol version")))
      else Ok(HelloAck(high, Intersection(hello.capabilities, CAPABILITIES), hubBuild, generation, hello.agentInstance))
  }

  ghost predicate VersionsMeet(hello: Hello) {
    exists v :: InRange(v, hello.minVersion, hello.maxVersion) && InRange(v, PROTOCOL_MIN, PROTOCOL_MAX)
  }

  /** A name of a build or of a capability: not empty, not too long, without a zero byte. */
  predicate IsName(value: Text, limit: nat) {
    1 <= |value| <= limit && forall i :: 0 <= i < |value| ==> value[i] != '\0'
  }

  /** The offer makes sense: a range of positive versions, at most 32 distinct capabilities, and two names. */
  ghost predicate IsOffer(hello: Hello) {
    && 1 <= hello.minVersion <= hello.maxVersion
    && |hello.capabilities| <= 32 && Distinct(hello.capabilities)
    && (forall i :: 0 <= i < |hello.capabilities| ==> IsName(hello.capabilities[i], 64))
    && IsName(hello.buildVersion, 128) && RuntimeId(hello.agentInstance)
  }

  /** A hello is answered exactly if it makes sense and the version ranges meet. The answer picks a version both sides
      speak and exactly the common capabilities, it names the Hub's build, the reserved generation and the Agent's
      instance, and it passes the Agent's own check whenever the Hub's build name and the generation do. */
  lemma NegotiationIsSound(hello: Hello, generation: nat, hubBuild: Text)
    ensures var r := NegotiateHello(hello, generation, hubBuild);
      && (r == Err(InvalidHello) <==> !IsOffer(hello))
      && (r.Ok? <==> IsOffer(hello) && VersionsMeet(hello))
      && (r.Ok? ==>
            && InRange(r.value.version, hello.minVersion, hello.maxVersion)
            && (forall c :: c in r.value.capabilities <==> c in hello.capabilities && c in CAPABILITIES)
            && r.value.buildVersion == hubBuild && r.value.generation == generation
            && r.value.agentInstance == hello.agentInstance
            && (r.value.Validate() <==> generation != 0 && IsName(hubBuild, 128)))
  {
    var r := NegotiateHello(hello, generation, hubBuild);
    IntersectionIsSound(hello.capabilities, CAPABILITIES);
    if r.Ok? {
      assert InRange(r.value.version, hello.minVersion, hello.maxVersion);
      var common := r.value.capabilities;
      assert forall i :: 0 <= i < |common| ==> common[i] in common;
      assert Distinct(hello.capabilities);
    }
  }
}
