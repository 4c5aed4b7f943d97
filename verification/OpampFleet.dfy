/** The agents an OpAMP server knows, as a value, and what each request or agent report does to it: the denormalised
    indexes that must agree, and the rollout of a configuration to a group of agents. */
module OpampFleet {
  import opened Text

  /** The text of an agent's instance uid. */
  type Uid = string
  type GroupID = string
  /** A connection handle. */
  type Conn = nat

  datatype Deployment = Deployment(instanceUID: Uid, configHash: string, collectorYAML: string, configFiles: map<string, string>)

  datatype AgentState = AgentState(
    instanceUID: Uid, groupID: GroupID, serviceID: string, online: bool, healthy: bool, healthSet: bool, capable: bool,
    effectiveHash: string, configStatus: string, lastConfigHash: string, lastError: string, lastSeen: int)

  const UNKNOWN_AGENT := AgentState("", "", "", false, false, false, false, "", "", "", "", 0)

  datatype Attribute = Attribute(key: string, text: string)

  datatype Detail = Detail(state: AgentState, identifying: seq<Attribute>, nonIdentifying: seq<Attribute>,
                           effectiveFiles: map<string, string>, lastRemoteConfig: string, lastRemoteHash: string, lastSeen: int)

  const NO_DETAIL := Detail(UNKNOWN_AGENT, [], [], map[], "", "", 0)

  // ---------- Agent reports ----------

  datatype Health = Health(healthy: bool, lastError: string)
  datatype Description = Description(identifying: seq<Attribute>, nonIdentifying: seq<Attribute>)
  datatype Effective = Effective(hash: string, files: map<string, string>)
  datatype ConfigStatus = UnsetStatus | Applied | Applying | Failed
  datatype RemoteStatus = RemoteStatus(status: ConfigStatus, lastHash: string, error: string)

  /** The AgentToServer message. Byte fields are texts with one character per byte. */
  datatype Message = Message(
    instanceUID: string, capabilities: nat, health: Option<Health>, description: Option<Description>,
    effective: Option<Effective>, remoteStatus: Option<RemoteStatus>)

  predicate IsBytes(s: string) { forall i :: 0 <= i < |s| ==> s[i] < '\U{100}' }

  predicate IsHexDigit(c: char) { '0' <= c <= '9' || 'a' <= c <= 'f' || 'A' <= c <= 'F' }

  predicate IsHex(s: string) { forall i :: 0 <= i < |s| ==> IsHexDigit(s[i]) }

  function HexDigit(n: nat): (c: char)
    requires n < 16
    ensures IsHexDigit(c)
  {
    "0123456789abcdef"[n]
  }

  function HexEncode(bytes: string): (r: string)
    ensures |r| == 2 * |bytes| && IsHex(r)
  {
    if bytes == "" then ""
    else [HexDigit(bytes[0] as int / 16 % 16), HexDigit(bytes[0] as int % 16)] + HexEncode(bytes[1..])
  }

  function HashToText(hash: string): string {
    if hash == "" then "" else if IsHex(hash) then hash else HexEncode(hash)
  }

  predicate Printable(s: string) { forall i :: 0 <= i < |s| ==> ' ' <= s[i] <= '~' }

  function InstanceUIDToText(bytes: string): Uid {
    if Printable(bytes) then bytes else HexEncode(bytes)
  }

  function UidOf(m: Message): Uid { InstanceUIDToText(m.instanceUID) }

  function StatusText(status: ConfigStatus): string {
    match status
    case Applied => "applied"
    case Applying => "applying"
    case Failed => "failed"
    case UnsetStatus => "unset"
  }

  /** The AcceptsRemoteConfig bit, 0x2, of OpAMP's AgentCapabilities. */
  predicate Capable(m: Message) { m.capabilities / 2 % 2 == 1 }

  /** The text last given for `key`; blank texts do not count. */
  function LastText(attributes: seq<Attribute>, key: string): string {
    if attributes == [] then ""
    else
      var last := attributes[|attributes| - 1];
      if last.key == key && TrimSpace(last.text) != "" then last.text else LastText(attributes[..|attributes| - 1], key)
  }

  function FirstText(attributes: seq<Attribute>, key: string, other: string): string {
    var text := TrimSpace(LastText(attributes, key));
    if text != "" then text else TrimSpace(LastText(attributes, other))
  }

  /** The group an agent says it belongs to, or the empty text. */
  function DescribedGroup(d: Description): GroupID {
    FirstText(d.identifying + d.nonIdentifying, "novaapm.collector.group_id", "collector_group_id")
  }

  // ---------- The fleet ----------

  datatype Fleet = Fleet(
    agents: map<Uid, AgentState>, details: map<Uid, Detail>, pending: map<Uid, Deployment>, groupPending: map<GroupID, Deployment>,
    instanceGroups: map<Uid, GroupID>, serviceAgents: map<Uid, string>,
    connectionUIDs: map<Conn, Uid>, uidConnections: map<Uid, Conn>)

  const EMPTY_FLEET := Fleet(map[], map[], map[], map[], map[], map[], map[], map[])

  /** Reading a key that is not there gives the type's blank value. */
  function Get<K, V>(m: map<K, V>, key: K, blank: V): V { if key in m then m[key] else blank }

  /** The group a message counts for: the one the agent describes, else the one it is registered in. */
  function ResolvedGroup(f: Fleet, m: Message): GroupID {
    if m.description.Some? && DescribedGroup(m.description.value) != "" then DescribedGroup(m.description.value)
    else Get(f.instanceGroups, UidOf(m), "")
  }

  predicate ReportsApplied(m: Message) { m.remoteStatus.Some? && m.remoteStatus.value.status == Applied }

  /** The message acknowledges, for group `g`, a deployment with this hash. */
  predicate Acknowledges(f: Fleet, m: Message, g: GroupID, hash: string) {
    g != "" && ResolvedGroup(f, m) == g && ReportsApplied(m) && HashToText(m.remoteStatus.value.lastHash) == hash
  }

  /** An agent's state after a report, given what it was and the group and service it belongs to. */
  function StateAfter(was: AgentState, g: GroupID, service: string, m: Message, now: int): AgentState {
    AgentState(
      UidOf(m), g, service, true,
      if m.health.Some? then m.health.value.healthy else was.healthy, m.health.Some?, Capable(m),
      if m.effective.Some? then m.effective.value.hash else was.effectiveHash,
      if m.remoteStatus.Some? then StatusText(m.remoteStatus.value.status) else was.configStatus,
      if m.remoteStatus.Some? then HashToText(m.remoteStatus.value.lastHash) else was.lastConfigHash,
      if m.remoteStatus.Some? then m.remoteStatus.value.error else if m.health.Some? then m.health.value.lastError else was.lastError,
      now)
  }

  function DetailAfter(was: Detail, state: AgentState, m: Message, now: int): Detail {
    Detail(
      state,
      if m.description.Some? then m.description.value.identifying else was.identifying,
      if m.description.Some? then m.description.value.nonIdentifying else was.nonIdentifying,
      if m.effective.Some? then m.effective.value.files else was.effectiveFiles,
      was.lastRemoteConfig, was.lastRemoteHash, now)
  }

  function ReportedState(f: Fleet, m: Message, now: int): AgentState {
    StateAfter(Get(f.agents, UidOf(m), UNKNOWN_AGENT), ResolvedGroup(f, m), Get(f.serviceAgents, UidOf(m), ""), m, now)
  }

  function ReportedDetail(f: Fleet, m: Message, now: int): Detail {
    DetailAfter(Get(f.details, UidOf(m), NO_DETAIL), ReportedState(f, m, now), m, now)
  }

  function Received(f: Fleet, conn: Option<Conn>, m: Message, now: int): Fleet {
    var uid, g := UidOf(m), ResolvedGroup(f, m);
    var acknowledged := g in f.groupPending && Acknowledges(f, m, g, f.groupPending[g].configHash);
    Fleet(
      f.agents[uid := ReportedState(f, m, now)],
      f.details[uid := ReportedDetail(f, m, now)],
      if ReportsApplied(m) then f.pending - {uid} else f.pending,
      if acknowledged then f.groupPending - {g} else f.groupPending,
      if m.description.Some? && g != "" then f.instanceGroups[uid := g] else f.instanceGroups,
      f.serviceAgents,
      if conn.Some? then f.connectionUIDs[conn.value := uid] else f.connectionUIDs,
      if conn.Some? then f.uidConnections[uid := conn.value] else f.uidConnections)
  }

  /** What a message is answered with, given the fleet after it was taken in. */
  function Answer(f: Fleet, m: Message, g: GroupID): Option<Deployment> {
    if !Capable(m) then None
    else if g != "" && g in f.groupPending then Some(f.groupPending[g])
    else if UidOf(m) in f.pending then Some(f.pending[UidOf(m)])
    else None
  }

  function RecordedDetail(f: Fleet, uid: Uid, d: Deployment): Detail {
    var state := Get(f.agents, uid, UNKNOWN_AGENT);
    Get(f.details, uid, NO_DETAIL).(state := state, lastRemoteConfig := d.collectorYAML, lastRemoteHash := d.configHash, lastSeen := state.lastSeen)
  }

  function Recorded(f: Fleet, uid: Uid, d: Deployment): Fleet {
    f.(details := f.details[uid := RecordedDetail(f, uid, d)])
  }

  function ClosedState(f: Fleet, uid: Uid, now: int): AgentState {
    Get(f.agents, uid, UNKNOWN_AGENT).(instanceUID := uid, online := false, healthy := false, healthSet := true, lastSeen := now)
  }

  function ClosedDetail(f: Fleet, uid: Uid, now: int): Detail {
    Get(f.details, uid, NO_DETAIL).(state := ClosedState(f, uid, now), lastSeen := now)
  }

  /** A connection that never reported, or reported as the agent with the empty uid, is only forgotten. */
  function Closed(f: Fleet, conn: Conn, now: int): Fleet {
    var uid := Get(f.connectionUIDs, conn, "");
    Fleet(
      if uid == "" then f.agents else f.agents[uid := ClosedState(f, uid, now)],
      if uid == "" then f.details else f.details[uid := ClosedDetail(f, uid, now)],
      f.pending, f.groupPending, f.instanceGroups, f.serviceAgents,
      f.connectionUIDs - {conn},
      if uid == "" then f.uidConnections else f.uidConnections - {uid})
  }

  function Moved(f: Fleet, uid: Uid, g: GroupID, service: string): map<Uid, AgentState> {
    f.agents[uid := Get(f.agents, uid, UNKNOWN_AGENT).(instanceUID := uid, groupID := g, serviceID := service)]
  }

  /** Every step happens under the manager's lock. Sending to a group queues the deployment first and records each
      delivery later; answering a message records it in a second step as well. */
  datatype Op =
    | Queue(deployment: Deployment)
    | QueueGroup(groupID: GroupID, deployment: Deployment)
    | RegisterGroup(uid: Uid, groupID: GroupID)
    | UnregisterGroup(uid: Uid)
    | RegisterService(uid: Uid, serviceID: string)
    | UnregisterService(uid: Uid)
    | Receive(conn: Option<Conn>, message: Message, now: int)
    | Record(uid: Uid, deployment: Deployment)
    | Close(connection: Conn, now: int)

  function Step(f: Fleet, op: Op): Fleet {
    match op
    case Queue(d) => f.(pending := f.pending[(if d.instanceUID == "" then "default" else d.instanceUID) := d])
    case QueueGroup(g, d) => f.(groupPending := f.groupPending[g := d])
    case RegisterGroup(uid, g) =>
      f.(instanceGroups := f.instanceGroups[uid := g], serviceAgents := f.serviceAgents - {uid}, agents := Moved(f, uid, g, ""))
    case UnregisterGroup(uid) =>
      f.(instanceGroups := f.instanceGroups - {uid}, agents := Moved(f, uid, "", Get(f.agents, uid, UNKNOWN_AGENT).serviceID))
    case RegisterService(uid, s) =>
      f.(serviceAgents := f.serviceAgents[uid := s], instanceGroups := f.instanceGroups - {uid}, agents := Moved(f, uid, "", s))
    case UnregisterService(uid) =>
      f.(serviceAgents := f.serviceAgents - {uid}, agents := Moved(f, uid, Get(f.agents, uid, UNKNOWN_AGENT).groupID, ""))
    case Receive(conn, m, now) => Received(f, conn, m, now)
    case Record(uid, d) => Recorded(f, uid, d)
    case Close(conn, now) => Closed(f, conn, now)
  }

  function After(f: Fleet, ops: seq<Op>): Fleet {
    if ops == [] then f else Step(After(f, ops[..|ops| - 1]), ops[|ops| - 1])
  }

  // ---------- The indexes agree ----------

  predicate AgentIndexed(f: Fleet, uid: Uid)
    requires uid in f.agents
  {
    && f.agents[uid].instanceUID == uid
    && f.agents[uid].groupID == Get(f.instanceGroups, uid, "")
    && f.agents[uid].serviceID == Get(f.serviceAgents, uid, "")
  }

  predicate Indexed(f: Fleet) {
    && (forall uid :: uid in f.agents ==> AgentIndexed(f, uid))
    && f.instanceGroups.Keys <= f.agents.Keys
    && f.serviceAgents.Keys <= f.agents.Keys
    && f.details.Keys <= f.agents.Keys
    && forall c :: c in f.connectionUIDs ==> f.connectionUIDs[c] in f.agents
  }

  /** Deliveries are recorded for agents that were found among the known ones; no step forgets an agent. */
  predicate CanStep(f: Fleet, op: Op) { op.Record? ==> op.uid in f.agents }

  lemma ReceiveKeepsIndexed(f: Fleet, conn: Option<Conn>, m: Message, now: int)
    requires Indexed(f)
    ensures Indexed(Received(f, conn, m, now))
  {
    hide InstanceUIDToText, DescribedGroup, HashToText;
    var after := Received(f, conn, m, now);
    forall uid | uid in after.agents ensures AgentIndexed(after, uid) {
      assert uid != UidOf(m) ==> AgentIndexed(f, uid);
    }
  }

  /** A step that changes the entries of one agent only, and leaves those in agreement, keeps all indexes in agreement. */
  lemma OneAgentMoved(f: Fleet, after: Fleet, uid: Uid)
    requires Indexed(f) && uid in after.agents && AgentIndexed(after, uid)
    requires after.agents.Keys == f.agents.Keys + {uid}
    requires forall u :: u in f.agents && u != uid ==>
                after.agents[u] == f.agents[u] && Get(after.instanceGroups, u, "") == Get(f.instanceGroups, u, "")
                && Get(after.serviceAgents, u, "") == Get(f.serviceAgents, u, "")
    requires after.instanceGroups.Keys <= f.instanceGroups.Keys + {uid} && after.serviceAgents.Keys <= f.serviceAgents.Keys + {uid}
    requires after.details.Keys <= f.details.Keys + {uid}
    requires forall c :: c in after.connectionUIDs ==> c in f.connectionUIDs && after.connectionUIDs[c] == f.connectionUIDs[c]
    ensures Indexed(after)
  {
    forall u | u in after.agents ensures AgentIndexed(after, u) {
      assert u != uid ==> AgentIndexed(f, u);
    }
  }

  lemma KnownOrNew(f: Fleet, uid: Uid)
    requires Indexed(f)
    ensures Get(f.agents, uid, UNKNOWN_AGENT).groupID == Get(f.instanceGroups, uid, "")
    ensures Get(f.agents, uid, UNKNOWN_AGENT).serviceID == Get(f.serviceAgents, uid, "")
  {
    if uid in f.agents {
      assert AgentIndexed(f, uid);
    }
  }

  lemma RegisterGroupKeepsIndexed(f: Fleet, uid: Uid, g: GroupID)
    requires Indexed(f)
    ensures Indexed(Step(f, RegisterGroup(uid, g)))
  {
    hide Indexed;
    OneAgentMoved(f, Step(f, RegisterGroup(uid, g)), uid);
  }

  lemma UnregisterGroupKeepsIndexed(f: Fleet, uid: Uid)
    requires Indexed(f)
    ensures Indexed(Step(f, UnregisterGroup(uid)))
  {
    hide Indexed;
    KnownOrNew(f, uid);
    OneAgentMoved(f, Step(f, UnregisterGroup(uid)), uid);
  }

  lemma RegisterServiceKeepsIndexed(f: Fleet, uid: Uid, service: string)
    requires Indexed(f)
    ensures Indexed(Step(f, RegisterService(uid, service)))
  {
    hide Indexed;
    OneAgentMoved(f, Step(f, RegisterService(uid, service)), uid);
  }

  lemma UnregisterServiceKeepsIndexed(f: Fleet, uid: Uid)
    requires Indexed(f)
    ensures Indexed(Step(f, UnregisterService(uid)))
  {
    hide Indexed;
    KnownOrNew(f, uid);
    OneAgentMoved(f, Step(f, UnregisterService(uid)), uid);
  }

  lemma CloseKeepsIndexed(f: Fleet, conn: Conn, now: int)
    requires Indexed(f)
    ensures Indexed(Closed(f, conn, now))
  {
    var uid := Get(f.connectionUIDs, conn, "");
    if uid != "" {
      assert uid in f.agents && AgentIndexed(f, uid);
      OneAgentMoved(f, Closed(f, conn, now), uid);
    } else {
      hide AgentIndexed;
      var after := Closed(f, conn, now);
      forall u | u in after.agents ensures AgentIndexed(after, u) {
        SameIndexed(f, after, u);
      }
    }
  }

  lemma SameIndexed(f: Fleet, after: Fleet, uid: Uid)
    requires uid in f.agents && AgentIndexed(f, uid)
    requires after.agents == f.agents && after.instanceGroups == f.instanceGroups && after.serviceAgents == f.serviceAgents
    ensures AgentIndexed(after, uid)
  {}

  lemma QueueKeepsIndexed(f: Fleet, op: Op)
    requires Indexed(f) && CanStep(f, op) && (op.Queue? || op.QueueGroup? || op.Record?)
    ensures Indexed(Step(f, op))
  {
    hide AgentIndexed;
    var after := Step(f, op);
    forall u | u in after.agents ensures AgentIndexed(after, u) {
      SameIndexed(f, after, u);
    }
  }

  lemma StepKeepsIndexed(f: Fleet, op: Op)
    requires Indexed(f) && CanStep(f, op)
    ensures Indexed(Step(f, op))
  {
    if op.Receive? {
      hide Received, Indexed;
      ReceiveKeepsIndexed(f, op.conn, op.message, op.now);
    } else if op.Close? {
      hide Closed, Indexed;
      CloseKeepsIndexed(f, op.connection, op.now);
    } else if op.Queue? || op.QueueGroup? || op.Record? {
      hide Step, Indexed;
      QueueKeepsIndexed(f, op);
    } else {
      hide Step, Indexed;
      match op {
        case RegisterGroup(uid, g) => RegisterGroupKeepsIndexed(f, uid, g);
        case UnregisterGroup(uid) => UnregisterGroupKeepsIndexed(f, uid);
        case RegisterService(uid, service) => RegisterServiceKeepsIndexed(f, uid, service);
        case UnregisterService(uid) => UnregisterServiceKeepsIndexed(f, uid);
        case _ =>
      }
    }
  }

  ghost predicate Feasible(ops: seq<Op>) {
    ops == [] || (Feasible(ops[..|ops| - 1]) && CanStep(After(EMPTY_FLEET, ops[..|ops| - 1]), ops[|ops| - 1]))
  }

  lemma EmptyIndexed()
    ensures Indexed(EMPTY_FLEET)
  {}

  /** After any run the agents' groups and services are those of the indexes, and every index is about known agents. */
  lemma {:induction false} ReachableIndexed(ops: seq<Op>)
    requires Feasible(ops)
    ensures Indexed(After(EMPTY_FLEET, ops))
  {
    hide Step, Indexed, CanStep;
    if ops == [] {
      EmptyIndexed();
    } else {
      ReachableIndexed(ops[..|ops| - 1]);
      StepKeepsIndexed(After(EMPTY_FLEET, ops[..|ops| - 1]), ops[|ops| - 1]);
    }
  }

  function DetailOf(f: Fleet, uid: Uid): Option<Detail> {
    if uid in f.details then Some(f.details[uid].(state := Get(f.agents, uid, UNKNOWN_AGENT)))
    else if uid in f.agents then Some(NO_DETAIL.(state := f.agents[uid], lastSeen := f.agents[uid].lastSeen))
    else None
  }

  /** The detail shown for an agent carries its current state, and there is one exactly for the known agents. */
  lemma DetailIsCurrent(ops: seq<Op>, uid: Uid)
    requires Feasible(ops)
    ensures var f := After(EMPTY_FLEET, ops);
            && (DetailOf(f, uid).Some? <==> uid in f.agents)
            && (uid in f.agents ==> DetailOf(f, uid).value.state == f.agents[uid])
  {
    hide After, Feasible, AgentIndexed;
    ReachableIndexed(ops);
  }

  // ---------- The connection indexes ----------

  /** The connection an agent is reached by is one that reported as that agent. */
  predicate Connected(f: Fleet) {
    forall uid :: uid in f.uidConnections ==> f.uidConnections[uid] in f.connectionUIDs && f.connectionUIDs[f.uidConnections[uid]] == uid
  }

  /** `conn` is how some other agent than `uid` is reached. */
  predicate ReachesAnother(f: Fleet, conn: Conn, uid: Uid) {
    conn in f.connectionUIDs && f.connectionUIDs[conn] != uid
    && f.connectionUIDs[conn] in f.uidConnections && f.uidConnections[f.connectionUIDs[conn]] == conn
  }

  /** A message keeps the connection indexes in agreement exactly when its connection was not the one another agent is
      reached by. */
  lemma ReceiveConnectedIff(f: Fleet, conn: Conn, m: Message, now: int)
    requires Connected(f)
    ensures Connected(Received(f, Some(conn), m, now)) <==> !ReachesAnother(f, conn, UidOf(m))
  {
    hide InstanceUIDToText, ReportedState, ReportedDetail, ResolvedGroup, Acknowledges;
    var after := Received(f, Some(conn), m, now);
    if ReachesAnother(f, conn, UidOf(m)) {
      assert f.connectionUIDs[conn] in after.uidConnections;
    }
  }

  lemma CloseForgets(f: Fleet, conn: Conn, now: int)
    ensures Closed(f, conn, now).connectionUIDs == f.connectionUIDs - {conn}
    ensures Closed(f, conn, now).uidConnections
            == if Get(f.connectionUIDs, conn, "") == "" then f.uidConnections else f.uidConnections - {f.connectionUIDs[conn]}
  {
    hide ClosedState, ClosedDetail;
  }

  /** Closing a connection keeps them in agreement exactly when it was not the one the agent with the empty uid is reached
      by: for that agent closing returns early and leaves the other index alone. */
  lemma CloseConnectedIff(f: Fleet, conn: Conn, now: int)
    requires Connected(f)
    ensures Connected(Closed(f, conn, now)) <==> !("" in f.uidConnections && f.uidConnections[""] == conn)
  {
    hide Closed;
    CloseForgets(f, conn, now);
    var after := Closed(f, conn, now);
    if "" in f.uidConnections && f.uidConnections[""] == conn {
      assert "" in after.uidConnections;
      assert conn !in after.connectionUIDs;
    } else {
      var closed := Get(f.connectionUIDs, conn, "");
      forall uid | uid in after.uidConnections
        ensures after.uidConnections[uid] in after.connectionUIDs && after.connectionUIDs[after.uidConnections[uid]] == uid
      {
        assert uid in f.uidConnections && f.connectionUIDs[f.uidConnections[uid]] == uid;
        assert f.uidConnections[uid] == conn ==> uid == closed;
      }
    }
  }

  /** `conn` last reported as an agent that by now is reached by another connection. */
  predicate Superseded(f: Fleet, conn: Conn) {
    var uid := Get(f.connectionUIDs, conn, "");
    uid != "" && uid in f.uidConnections && f.uidConnections[uid] != conn
  }

  /** Closing a connection leaves every agent that is reached by another one reachable, exactly when the connection was
      not superseded: closing an old connection late cuts off an agent that has reconnected. */
  lemma CloseLeavesOthersIff(f: Fleet, conn: Conn, now: int)
    ensures (forall uid :: uid in f.uidConnections && f.uidConnections[uid] != conn ==>
                             uid in Closed(f, conn, now).uidConnections && Closed(f, conn, now).uidConnections[uid] == f.uidConnections[uid])
            <==> !Superseded(f, conn)
  {
    if Superseded(f, conn) {
      var uid := f.connectionUIDs[conn];
      assert uid in f.uidConnections && f.uidConnections[uid] != conn && uid !in Closed(f, conn, now).uidConnections;
    }
  }

  /** An agent reports over one connection and then over another; the first one is closed late. */
  function Reconnected(m: Message): seq<Op> {
    [Receive(Some(1), m, 0), Receive(Some(2), m, 0), Close(1, 0)]
  }

  lemma ThreeSteps(f: Fleet, a: Op, b: Op, c: Op)
    ensures After(f, [a, b, c]) == Step(Step(Step(f, a), b), c)
  {
    hide Step, After;
    AfterSnoc(f, [a, b], c);
    AfterSnoc(f, [a], b);
    AfterSnoc(f, [], a);
    NoSteps(f);
    assert [] + [a] == [a] && [a] + [b] == [a, b] && [a, b] + [c] == [a, b, c];
  }

  lemma NoSteps(f: Fleet)
    ensures After(f, []) == f
  {}

  /** The agent has reconnected, its new connection is still bound to it, and yet it counts as offline and cannot be reached. */
  lemma LateCloseCutsOff(m: Message)
    requires UidOf(m) != ""
    ensures var f := After(EMPTY_FLEET, Reconnected(m)); var uid := UidOf(m);
            && 2 in f.connectionUIDs && f.connectionUIDs[2] == uid
            && uid !in f.uidConnections && uid in f.agents && !f.agents[uid].online
  {
    hide InstanceUIDToText, ReportedState, ReportedDetail, ResolvedGroup, Acknowledges, ReportsApplied, ClosedDetail, After;
    ThreeSteps(EMPTY_FLEET, Receive(Some(1), m, 0), Receive(Some(2), m, 0), Close(1, 0));
    var once := Received(EMPTY_FLEET, Some(1), m, 0);
    var twice := Received(once, Some(2), m, 0);
    assert twice.connectionUIDs == map[1 := UidOf(m), 2 := UidOf(m)];
  }

  /** One connection reports as two agents: the first is then reached over a connection that is bound to the second. */
  lemma SharedConnectionDisagrees(m: Message, other: Message)
    requires UidOf(m) != UidOf(other)
    ensures !Connected(After(EMPTY_FLEET, [Receive(Some(1), m, 0), Receive(Some(1), other, 0)]))
  {
    hide InstanceUIDToText, ReportedState, ReportedDetail, ResolvedGroup, Acknowledges, ReportsApplied, After;
    AfterSnoc(EMPTY_FLEET, [Receive(Some(1), m, 0)], Receive(Some(1), other, 0));
    AfterSnoc(EMPTY_FLEET, [], Receive(Some(1), m, 0));
    NoSteps(EMPTY_FLEET);
    var f := Received(Received(EMPTY_FLEET, Some(1), m, 0), Some(1), other, 0);
    assert [] + [Receive(Some(1), m, 0)] == [Receive(Some(1), m, 0)];
    assert [Receive(Some(1), m, 0)] + [Receive(Some(1), other, 0)] == [Receive(Some(1), m, 0), Receive(Some(1), other, 0)];
    assert UidOf(m) in f.uidConnections && f.uidConnections[UidOf(m)] == 1 && f.connectionUIDs[1] == UidOf(other);
  }

  /** An agent with the empty uid stays bound to a connection that is closed. */
  lemma EmptyUidStaysBound(m: Message)
    requires m.instanceUID == ""
    ensures !Connected(After(EMPTY_FLEET, [Receive(Some(1), m, 0), Close(1, 0)]))
  {
    hide ReportedState, ReportedDetail, ResolvedGroup, Acknowledges, ReportsApplied, After;
    AfterSnoc(EMPTY_FLEET, [Receive(Some(1), m, 0)], Close(1, 0));
    AfterSnoc(EMPTY_FLEET, [], Receive(Some(1), m, 0));
    NoSteps(EMPTY_FLEET);
    assert [] + [Receive(Some(1), m, 0)] == [Receive(Some(1), m, 0)];
    assert [Receive(Some(1), m, 0)] + [Close(1, 0)] == [Receive(Some(1), m, 0), Close(1, 0)];
    var f := Closed(Received(EMPTY_FLEET, Some(1), m, 0), 1, 0);
    assert "" in f.uidConnections && f.uidConnections[""] == 1 && 1 !in f.connectionUIDs;
  }

  /** Every connection reports as one agent, whose uid is not empty. */
  predicate OneAgentEach(ops: seq<Op>, owner: map<Conn, Uid>) {
    forall i :: 0 <= i < |ops| && ops[i].Receive? && ops[i].conn.Some? ==>
                  ops[i].conn.value in owner && owner[ops[i].conn.value] == UidOf(ops[i].message) && UidOf(ops[i].message) != ""
  }

  predicate Owned(f: Fleet, owner: map<Conn, Uid>) {
    && (forall c :: c in f.connectionUIDs ==> c in owner && owner[c] == f.connectionUIDs[c] && owner[c] != "")
    && (forall uid :: uid in f.uidConnections ==> uid != "")
  }

  lemma {:induction false} ReachableConnected(ops: seq<Op>, owner: map<Conn, Uid>)
    requires OneAgentEach(ops, owner)
    ensures Connected(After(EMPTY_FLEET, ops)) && Owned(After(EMPTY_FLEET, ops), owner)
  {
    hide Step, InstanceUIDToText, Connected, Owned;
    if ops == [] {
      EmptyConnected(owner);
    } else {
      ReachableConnected(ops[..|ops| - 1], owner);
      StepKeepsOwned(After(EMPTY_FLEET, ops[..|ops| - 1]), ops[|ops| - 1], owner);
    }
  }

  lemma EmptyConnected(owner: map<Conn, Uid>)
    ensures Connected(EMPTY_FLEET) && Owned(EMPTY_FLEET, owner)
  {}

  lemma StepKeepsOwned(f: Fleet, op: Op, owner: map<Conn, Uid>)
    requires Connected(f) && Owned(f, owner)
    requires op.Receive? && op.conn.Some? ==> op.conn.value in owner && owner[op.conn.value] == UidOf(op.message) && UidOf(op.message) != ""
    ensures Connected(Step(f, op)) && Owned(Step(f, op), owner)
  {
    hide Received, Closed, InstanceUIDToText, Moved, RecordedDetail;
    if op.Receive? {
      ReceiveKeepsOwned(f, op.conn, op.message, op.now, owner);
    } else if op.Close? {
      CloseKeepsOwned(f, op.connection, op.now, owner);
    }
  }

  lemma ReceiveKeepsOwned(f: Fleet, conn: Option<Conn>, m: Message, now: int, owner: map<Conn, Uid>)
    requires Connected(f) && Owned(f, owner)
    requires conn.Some? ==> conn.value in owner && owner[conn.value] == UidOf(m) && UidOf(m) != ""
    ensures Connected(Received(f, conn, m, now)) && Owned(Received(f, conn, m, now), owner)
  {
    hide InstanceUIDToText, ReportedState, ReportedDetail, ResolvedGroup, Acknowledges;
  }

  lemma CloseKeepsOwned(f: Fleet, conn: Conn, now: int, owner: map<Conn, Uid>)
    requires Connected(f) && Owned(f, owner)
    ensures Connected(Closed(f, conn, now)) && Owned(Closed(f, conn, now), owner)
  {
    hide Closed;
    CloseConnectedIff(f, conn, now);
    CloseForgets(f, conn, now);
  }

  // ---------- Rolling out to a group ----------

  predicate QueuesFor(op: Op, g: GroupID) { op.QueueGroup? && op.groupID == g }

  /** The `i`-th step of the run is an acknowledgement, for group `g`, of a deployment with this hash. */
  predicate AckAt(f: Fleet, ops: seq<Op>, i: int, g: GroupID, hash: string) {
    0 <= i < |ops| && ops[i].Receive? && Acknowledges(After(f, ops[..i]), ops[i].message, g, hash)
  }

  lemma StepPending(f: Fleet, op: Op, g: GroupID)
    requires !QueuesFor(op, g)
    ensures g in Step(f, op).groupPending ==> g in f.groupPending && Step(f, op).groupPending[g] == f.groupPending[g]
    ensures g in f.groupPending ==>
              (g in Step(f, op).groupPending <==> !(op.Receive? && Acknowledges(f, op.message, g, f.groupPending[g].configHash)))
  {
    hide InstanceUIDToText, ReportedState, ReportedDetail, ResolvedGroup, HashToText, ReportsApplied;
  }

  /** A deployment queued for a group, and not replaced, is pending exactly until some message counting for that group
      reports that exactly its hash is applied; nothing else removes it. */
  lemma {:induction false} PendingUntilAcknowledged(f: Fleet, ops: seq<Op>, g: GroupID)
    requires g in f.groupPending
    requires forall i :: 0 <= i < |ops| ==> !QueuesFor(ops[i], g)
    ensures var d, after := f.groupPending[g], After(f, ops);
            && (g in after.groupPending ==> after.groupPending[g] == d)
            && (g in after.groupPending <==> !exists i :: AckAt(f, ops, i, g, d.configHash))
  {
    hide Step, Acknowledges;
    if ops != [] {
      var n := |ops| - 1;
      var d := f.groupPending[g];
      var init := ops[..n];
      PendingUntilAcknowledged(f, init, g);
      StepPending(After(f, init), ops[n], g);
      forall i | 0 <= i < n ensures AckAt(f, init, i, g, d.configHash) == AckAt(f, ops, i, g, d.configHash) {
        assert init[..i] == ops[..i];
      }
      if g in After(f, ops).groupPending {
        forall i ensures !AckAt(f, ops, i, g, d.configHash) {
          assert i < n ==> !AckAt(f, init, i, g, d.configHash);
        }
      } else if g in After(f, init).groupPending {
        assert AckAt(f, ops, n, g, d.configHash);
      } else {
        var i :| AckAt(f, init, i, g, d.configHash);
        assert AckAt(f, ops, i, g, d.configHash);
      }
    }
  }

  /** The `k`-th step queues `d` for the group, and no later one queues anything for it. */
  predicate LastQueued(ops: seq<Op>, k: int, g: GroupID, d: Deployment) {
    0 <= k < |ops| && ops[k] == QueueGroup(g, d) && forall j :: k < j < |ops| ==> !QueuesFor(ops[j], g)
  }

  /** Whatever is pending for a group is the last deployment queued for it. */
  lemma {:induction false} PendingIsLastQueued(ops: seq<Op>, g: GroupID)
    requires g in After(EMPTY_FLEET, ops).groupPending
    ensures exists k :: LastQueued(ops, k, g, After(EMPTY_FLEET, ops).groupPending[g])
  {
    hide Acknowledges, Received, Moved, RecordedDetail, Closed;
    if ops != [] {
      var n := |ops| - 1;
      var d := After(EMPTY_FLEET, ops).groupPending[g];
      if QueuesFor(ops[n], g) {
        assert LastQueued(ops, n, g, d);
      } else {
        hide Step;
        StepPending(After(EMPTY_FLEET, ops[..n]), ops[n], g);
        PendingIsLastQueued(ops[..n], g);
        var k :| LastQueued(ops[..n], k, g, d);
        assert ops[k] == ops[..n][k];
        assert forall j :: k < j < n ==> ops[j] == ops[..n][j];
        assert LastQueued(ops, k, g, d);
      }
    }
  }

  /** A message from a capable member is answered with the group's deployment, whatever is pending for the agent itself. */
  lemma MemberIsAnswered(f: Fleet, conn: Option<Conn>, m: Message, now: int, g: GroupID)
    requires g != "" && ResolvedGroup(f, m) == g && g in f.groupPending && Capable(m)
    requires !Acknowledges(f, m, g, f.groupPending[g].configHash)
    ensures Answer(Received(f, conn, m, now), m, g) == Some(f.groupPending[g])
  {
    hide InstanceUIDToText, ReportedState, ReportedDetail, HashToText;
  }

  /** From the moment a deployment is queued for a group until the first message counting for that group reports it applied,
      every message of a capable member is answered with it, over any run that queues nothing newer for the group. */
  lemma RolloutReachesMembers(f: Fleet, ops: seq<Op>, g: GroupID, d: Deployment, conn: Option<Conn>, m: Message, now: int)
    requires g != "" && Capable(m)
    requires forall k :: 0 <= k < |ops| ==> !QueuesFor(ops[k], g)
    requires var queued := Step(f, QueueGroup(g, d));
             && (forall k :: !AckAt(queued, ops, k, g, d.configHash))
             && ResolvedGroup(After(queued, ops), m) == g
             && !Acknowledges(After(queued, ops), m, g, d.configHash)
    ensures Answer(After(Step(f, QueueGroup(g, d)), ops + [Receive(conn, m, now)]), m, g) == Some(d)
  {
    hide Acknowledges, Answer, Received, After, ResolvedGroup, AckAt;
    var queued := Step(f, QueueGroup(g, d));
    PendingUntilAcknowledged(queued, ops, g);
    MemberIsAnswered(After(queued, ops), conn, m, now, g);
    AfterSnoc(queued, ops, Receive(conn, m, now));
  }

  lemma AfterSnoc(f: Fleet, ops: seq<Op>, op: Op)
    ensures After(f, ops + [op]) == Step(After(f, ops), op)
  {
    hide Step;
    assert (ops + [op])[..|ops + [op]| - 1] == ops;
  }

  // ---------- Hashes and uids as texts ----------

  /** A hash echoed by an agent reads as the hash that was sent exactly when it is made of hex digits. */
  lemma EchoedHashIff(hash: string)
    ensures HashToText(hash) == hash <==> IsHex(hash)
  {
    if !IsHex(hash) {
      assert |HexEncode(hash)| == 2 * |hash|;
    }
  }

  /** An agent that applied a group's deployment and echoes its hash ends the rollout exactly when that hash is made of hex
      digits. */
  lemma HonestAcknowledgementIff(f: Fleet, conn: Option<Conn>, m: Message, now: int, g: GroupID)
    requires g != "" && ResolvedGroup(f, m) == g && g in f.groupPending
    requires ReportsApplied(m) && m.remoteStatus.value.lastHash == f.groupPending[g].configHash
    ensures g !in Received(f, conn, m, now).groupPending <==> IsHex(f.groupPending[g].configHash)
  {
    hide InstanceUIDToText, ReportedState, ReportedDetail, HashToText;
    EchoedHashIff(f.groupPending[g].configHash);
  }

  lemma DigitInjective(a: nat, b: nat)
    requires a < 16 && b < 16 && HexDigit(a) == HexDigit(b)
    ensures a == b
  {}

  lemma {:induction false} HexEncodeInjective(a: string, b: string)
    requires IsBytes(a) && IsBytes(b) && HexEncode(a) == HexEncode(b)
    ensures a == b
  {
    hide HexEncode, HexDigit;
    if a != "" {
      EncodeFirst(a);
      EncodeFirst(b);
      FirstInjective(a[0], b[0]);
      HexEncodeInjective(a[1..], b[1..]);
      assert a == [a[0]] + a[1..] && b == [b[0]] + b[1..];
    }
  }

  lemma EncodeFirst(s: string)
    requires s != ""
    ensures HexEncode(s)[0] == HexDigit(s[0] as int / 16 % 16) && HexEncode(s)[1] == HexDigit(s[0] as int % 16)
    ensures HexEncode(s)[2..] == HexEncode(s[1..])
  {
    hide HexDigit;
  }

  lemma FirstInjective(a: char, b: char)
    requires a < '\U{100}' && b < '\U{100}'
    requires HexDigit(a as int / 16 % 16) == HexDigit(b as int / 16 % 16) && HexDigit(a as int % 16) == HexDigit(b as int % 16)
    ensures a == b
  {
    hide HexDigit;
    DigitInjective(a as int / 16 % 16, b as int / 16 % 16);
    DigitInjective(a as int % 16, b as int % 16);
    TwoDigits(a as int);
    TwoDigits(b as int);
  }

  lemma TwoDigits(n: nat)
    requires n < 256
    ensures n == 16 * (n / 16 % 16) + n % 16
  {
    assert n / 16 % 16 == n / 16;
  }

  /** Two instance uids read as the same agent exactly when they are equal or one is the hex text of the other, which is not
      printable. */
  lemma SameAgentIff(a: string, b: string)
    requires IsBytes(a) && IsBytes(b)
    ensures InstanceUIDToText(a) == InstanceUIDToText(b) <==>
            a == b || (Printable(a) && !Printable(b) && a == HexEncode(b)) || (!Printable(a) && Printable(b) && b == HexEncode(a))
  {
    hide HexEncode;
    if !Printable(a) && !Printable(b) && HexEncode(a) == HexEncode(b) {
      HexEncodeInjective(a, b);
    }
  }

  // ---------- Each step, field by field ----------

  /** The state of an agent after its report: what the message carries, and otherwise what was known of it. */
  lemma ReportTakenIn(f: Fleet, conn: Option<Conn>, m: Message, now: int)
    ensures var after, uid := Step(f, Receive(conn, m, now)).agents, UidOf(m);
            var blank := AgentState("", "", "", false, false, false, false, "", "", "", "", 0);
            var was := if uid in f.agents then f.agents[uid] else blank;
            && after.Keys == f.agents.Keys + {uid} && (forall u :: u in f.agents && u != uid ==> after[u] == f.agents[u])
            && after[uid].instanceUID == uid && after[uid].online && after[uid].lastSeen == now
            && (after[uid].capable <==> m.capabilities % 4 == 2 || m.capabilities % 4 == 3)
            && after[uid].serviceID == (if uid in f.serviceAgents then f.serviceAgents[uid] else "")
            && after[uid].groupID == (if m.description.Some? && DescribedGroup(m.description.value) != "" then DescribedGroup(m.description.value)
                                      else if uid in f.instanceGroups then f.instanceGroups[uid] else "")
            && (match m.health
                case Some(h) => after[uid].healthSet && after[uid].healthy == h.healthy
                case None => !after[uid].healthSet && after[uid].healthy == was.healthy)
            && after[uid].effectiveHash == (if m.effective.Some? then m.effective.value.hash else was.effectiveHash)
            && (match m.remoteStatus
                case Some(r) =>
                  && after[uid].lastConfigHash == HashToText(r.lastHash) && after[uid].lastError == r.error
                  && after[uid].configStatus == (match r.status case Applied => "applied" case Applying => "applying"
                                                 case Failed => "failed" case UnsetStatus => "unset")
                case None =>
                  && after[uid].lastConfigHash == was.lastConfigHash && after[uid].configStatus == was.configStatus
                  && after[uid].lastError == if m.health.Some? then m.health.value.lastError else was.lastError)
  {
    hide InstanceUIDToText, DescribedGroup, HashToText;
    assert m.capabilities == 4 * (m.capabilities / 4) + m.capabilities % 4;
  }

  /** What a report does to everything but the agents: an agent that has applied a configuration has nothing pending any more, nor has
      its group, if that is the one; a described group is remembered; and the connection leads to the agent. */
  lemma ReportIndexed(f: Fleet, conn: Option<Conn>, m: Message, now: int)
    ensures var after, uid := Step(f, Receive(conn, m, now)), UidOf(m);
            var g := if m.description.Some? && DescribedGroup(m.description.value) != "" then DescribedGroup(m.description.value)
                     else if uid in f.instanceGroups then f.instanceGroups[uid] else "";
            var applied := m.remoteStatus.Some? && m.remoteStatus.value.status == Applied;
            && after.pending == (if applied then f.pending - {uid} else f.pending)
            && after.groupPending == (if applied && g != "" && g in f.groupPending
                                         && f.groupPending[g].configHash == HashToText(m.remoteStatus.value.lastHash)
                                      then f.groupPending - {g} else f.groupPending)
            && after.instanceGroups == (if m.description.Some? && g != "" then f.instanceGroups[uid := g] else f.instanceGroups)
            && after.serviceAgents == f.serviceAgents
            && after.connectionUIDs == (if conn.Some? then f.connectionUIDs[conn.value := uid] else f.connectionUIDs)
            && after.uidConnections == (if conn.Some? then f.uidConnections[uid := conn.value] else f.uidConnections)
  {
    hide InstanceUIDToText, DescribedGroup, HashToText;
  }

  /** What is shown of an agent after its report. */
  lemma ReportShown(f: Fleet, conn: Option<Conn>, m: Message, now: int)
    ensures var after, uid := Step(f, Receive(conn, m, now)), UidOf(m);
            && after.details.Keys == f.details.Keys + {uid} && (forall u :: u in f.details && u != uid ==> after.details[u] == f.details[u])
            && after.details[uid].state == after.agents[uid] && after.details[uid].lastSeen == now
            && (m.description.Some? ==>
                  && after.details[uid].identifying == m.description.value.identifying
                  && after.details[uid].nonIdentifying == m.description.value.nonIdentifying)
            && (m.effective.Some? ==> after.details[uid].effectiveFiles == m.effective.value.files)
            && (uid in f.details ==>
                  && (m.description.None? ==> after.details[uid].identifying == f.details[uid].identifying
                                              && after.details[uid].nonIdentifying == f.details[uid].nonIdentifying)
                  && (m.effective.None? ==> after.details[uid].effectiveFiles == f.details[uid].effectiveFiles)
                  && after.details[uid].lastRemoteConfig == f.details[uid].lastRemoteConfig
                  && after.details[uid].lastRemoteHash == f.details[uid].lastRemoteHash)
            && (uid !in f.details ==>
                  && (m.description.None? ==> after.details[uid].identifying == [] && after.details[uid].nonIdentifying == [])
                  && (m.effective.None? ==> after.details[uid].effectiveFiles == map[])
                  && after.details[uid].lastRemoteConfig == "" && after.details[uid].lastRemoteHash == "")
  {
    hide InstanceUIDToText, DescribedGroup, HashToText;
  }

  /** A message of an agent that takes configurations is answered with its group's deployment, if there is one, else with its own. */
  lemma AnswerIs(f: Fleet, m: Message, g: GroupID)
    ensures var capable := m.capabilities % 4 == 2 || m.capabilities % 4 == 3;
            Answer(f, m, g) == if capable && g != "" && g in f.groupPending then Some(f.groupPending[g])
                               else if capable && UidOf(m) in f.pending then Some(f.pending[UidOf(m)]) else None
  {
    hide InstanceUIDToText;
    assert m.capabilities == 4 * (m.capabilities / 4) + m.capabilities % 4;
  }

  /** Closing a connection puts its agent offline and unhealthy, if it is known to have one, and forgets both ways between them. */
  lemma CloseTakesOffline(f: Fleet, conn: Conn, now: int)
    ensures var after := Step(f, Close(conn, now));
            && after.connectionUIDs == f.connectionUIDs - {conn} && after.pending == f.pending && after.groupPending == f.groupPending
            && after.instanceGroups == f.instanceGroups && after.serviceAgents == f.serviceAgents
            && (conn !in f.connectionUIDs || f.connectionUIDs[conn] == "" ==>
                  after.agents == f.agents && after.details == f.details && after.uidConnections == f.uidConnections)
            && (conn in f.connectionUIDs && f.connectionUIDs[conn] != "" ==>
                  var uid := f.connectionUIDs[conn];
                  && after.uidConnections == f.uidConnections - {uid}
                  && after.agents.Keys == f.agents.Keys + {uid} && (forall u :: u in f.agents && u != uid ==> after.agents[u] == f.agents[u])
                  && after.details.Keys == f.details.Keys + {uid} && (forall u :: u in f.details && u != uid ==> after.details[u] == f.details[u])
                  && !after.agents[uid].online && !after.agents[uid].healthy && after.agents[uid].healthSet
                  && after.agents[uid].lastSeen == now && after.agents[uid].instanceUID == uid
                  && (uid in f.agents ==>
                        after.agents[uid] ==
                        f.agents[uid].(online := false, healthy := false, healthSet := true, lastSeen := now, instanceUID := uid))
                  && after.details[uid].state == after.agents[uid] && after.details[uid].lastSeen == now
                  && (uid in f.details ==> after.details[uid] == f.details[uid].(state := after.agents[uid], lastSeen := now)))
  {}

  /** An agent is in a group or in a service: entering one leaves the other. */
  lemma MembershipsMoved(f: Fleet, uid: Uid, name: string)
    ensures var after := Step(f, RegisterGroup(uid, name));
            && after.instanceGroups == f.instanceGroups[uid := name] && after.serviceAgents == f.serviceAgents - {uid}
            && uid in after.agents && after.agents[uid].groupID == name && after.agents[uid].serviceID == ""
            && (forall u :: u in f.agents && u != uid ==> u in after.agents && after.agents[u] == f.agents[u])
    ensures var after := Step(f, RegisterService(uid, name));
            && after.serviceAgents == f.serviceAgents[uid := name] && after.instanceGroups == f.instanceGroups - {uid}
            && uid in after.agents && after.agents[uid].serviceID == name && after.agents[uid].groupID == ""
            && (forall u :: u in f.agents && u != uid ==> u in after.agents && after.agents[u] == f.agents[u])
  {}

  /** Leaving one does not touch the other. */
  lemma MembershipsLeft(f: Fleet, uid: Uid)
    ensures var after := Step(f, UnregisterGroup(uid));
            && after.instanceGroups == f.instanceGroups - {uid} && after.serviceAgents == f.serviceAgents
            && uid in after.agents && after.agents[uid].groupID == ""
            && after.agents[uid].serviceID == if uid in f.agents then f.agents[uid].serviceID else ""
    ensures var after := Step(f, UnregisterService(uid));
            && after.serviceAgents == f.serviceAgents - {uid} && after.instanceGroups == f.instanceGroups
            && uid in after.agents && after.agents[uid].serviceID == ""
            && after.agents[uid].groupID == if uid in f.agents then f.agents[uid].groupID else ""
  {}

  /** Queueing and recording touch one entry each. */
  lemma DeploymentsKept(f: Fleet, uid: Uid, g: GroupID, d: Deployment)
    ensures var key := if d.instanceUID == "" then "default" else d.instanceUID;
            Step(f, Queue(d)) == f.(pending := f.pending[key := d])
    ensures Step(f, QueueGroup(g, d)) == f.(groupPending := f.groupPending[g := d])
    ensures var after := Step(f, Record(uid, d));
            && after == f.(details := after.details) && after.details.Keys == f.details.Keys + {uid}
            && (forall u :: u in f.details && u != uid ==> after.details[u] == f.details[u])
            && after.details[uid].lastRemoteConfig == d.collectorYAML && after.details[uid].lastRemoteHash == d.configHash
            && (uid in f.agents ==> after.details[uid].state == f.agents[uid] && after.details[uid].lastSeen == f.agents[uid].lastSeen)
            && (uid in f.details ==>
                  && after.details[uid].identifying == f.details[uid].identifying
                  && after.details[uid].nonIdentifying == f.details[uid].nonIdentifying
                  && after.details[uid].effectiveFiles == f.details[uid].effectiveFiles)
  {}

  /** The group an agent describes is the last text given for the first key that has one, without the space around it. */
  lemma DescribedGroupIs(d: Description, i: nat)
    requires var all := d.identifying + d.nonIdentifying;
             i < |all| && TrimSpace(all[i].text) != "" && forall j :: i < j < |all| && all[j].key == all[i].key ==> TrimSpace(all[j].text) == ""
    ensures var all := d.identifying + d.nonIdentifying;
            && (all[i].key == "novaapm.collector.group_id" ==> DescribedGroup(d) == TrimSpace(all[i].text))
            && (all[i].key == "collector_group_id"
                && (forall j :: 0 <= j < |all| && all[j].key == "novaapm.collector.group_id" ==> TrimSpace(all[j].text) == "") ==>
                  DescribedGroup(d) == TrimSpace(all[i].text))
  {
    hide TrimSpace;
    var all := d.identifying + d.nonIdentifying;
    LastTextIs(all, i);
    TrimTrimmed("");
    if forall j :: 0 <= j < |all| && all[j].key == "novaapm.collector.group_id" ==> TrimSpace(all[j].text) == "" {
      NoText(all, "novaapm.collector.group_id");
    }
  }

  lemma {:induction false} LastTextIs(attributes: seq<Attribute>, i: nat)
    requires i < |attributes| && TrimSpace(attributes[i].text) != ""
    requires forall j :: i < j < |attributes| && attributes[j].key == attributes[i].key ==> TrimSpace(attributes[j].text) == ""
    ensures LastText(attributes, attributes[i].key) == attributes[i].text
  {
    hide TrimSpace;
    if i < |attributes| - 1 {
      LastTextIs(attributes[..|attributes| - 1], i);
    }
  }

  lemma {:induction false} NoText(attributes: seq<Attribute>, key: string)
    requires forall j :: 0 <= j < |attributes| && attributes[j].key == key ==> TrimSpace(attributes[j].text) == ""
    ensures LastText(attributes, key) == ""
  {
    hide TrimSpace;
    if attributes != [] {
      NoText(attributes[..|attributes| - 1], key);
    }
  }

  lemma NoGroupDescribed(d: Description)
    requires forall a :: a in d.identifying + d.nonIdentifying && a.key in {"novaapm.collector.group_id", "collector_group_id"} ==>
               TrimSpace(a.text) == ""
    ensures DescribedGroup(d) == ""
  {
    hide TrimSpace;
    var all := d.identifying + d.nonIdentifying;
    TrimTrimmed("");
    forall j | 0 <= j < |all| ensures all[j] in all {}
    NoText(all, "novaapm.collector.group_id");
    NoText(all, "collector_group_id");
  }
}
